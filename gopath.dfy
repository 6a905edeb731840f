/** The parts of Go's `path/filepath` (Unix flavour) that the modelled code
    uses: Base, Dir, Ext, Join and the Clean that Join and Dir apply to
    their results. */
module GoPath {
  import opened GoStrings

  /** Index just past the last '/' in `s[..i]`, or 0 when there is none. */
  function AfterLastSlash(s: string, i: nat): (j: nat)
    requires i <= |s|
    ensures j <= i
    ensures j > 0 ==> s[j - 1] == '/'
    ensures '/' !in s[j..i]
  {
    if i == 0 then 0
    else if s[i - 1] == '/' then i
    else
      var j := AfterLastSlash(s, i - 1);
      assert s[j..i] == s[j..i - 1] + [s[i - 1]];
      j
  }

  function TrimTrailingSlashes(s: string): (r: string)
    ensures |r| <= |s| && r == s[..|r|]
    ensures r == [] || r[|r| - 1] != '/'
    ensures forall k :: |r| <= k < |s| ==> s[k] == '/'
  {
    if |s| > 0 && s[|s| - 1] == '/' then TrimTrailingSlashes(s[..|s| - 1]) else s
  }

  /** filepath.Base: the last element, trailing separators removed; "." for
      the empty path and "/" for a path of separators only. */
  function Base(path: string): (r: string)
    ensures r != []
  {
    if path == "" then "."
    else
      var p := TrimTrailingSlashes(path);
      if p == "" then "/" else p[AfterLastSlash(p, |p|)..]
  }

  /** filepath.Dir: every element but the last, cleaned; "." when there is
      no separator. */
  function Dir(path: string): (r: string)
    ensures r != []
  {
    Clean(path[..AfterLastSlash(path, |path|)])
  }

  function ExtFrom(path: string, i: nat): (r: string)
    requires i <= |path|
    requires '.' !in path[i..] && '/' !in path[i..]
    ensures HasSuffix(path, r)
    ensures r == [] || (r[0] == '.' && '.' !in r[1..] && '/' !in r)
    ensures r == [] ==> '.' !in path[AfterLastSlash(path, i)..]
  {
    if i == 0 then ""
    else if path[i - 1] == '/' then ""
    else if path[i - 1] == '.' then
      assert path[i - 1..][1..] == path[i..];
      path[i - 1..]
    else
      assert path[i - 1..] == [path[i - 1]] + path[i..];
      ExtFrom(path, i - 1)
  }

  /** filepath.Ext: the suffix from the final '.' of the last element, or ""
      when the last element has no '.'. */
  function Ext(path: string): (r: string)
    ensures HasSuffix(path, r)
    ensures r == [] || (r[0] == '.' && '.' !in r[1..] && '/' !in r)
    ensures r == [] ==> '.' !in path[AfterLastSlash(path, |path|)..]
  {
    ExtFrom(path, |path|)
  }

  /** filepath.Join of two elements: the elements from the first non-empty
      one on, joined by '/' and cleaned; "" when both are empty. */
  function Join(dir: string, name: string): string {
    if dir == "" then (if name == "" then "" else Clean(name))
    else Clean(dir + "/" + name)
  }

  // ---------------------------------------------------------------- Clean

  /** The elements of a path: the pieces between its separators, empty
      pieces included ("/a//b" has the elements "", "a", "" and "b"). */
  function Elements(path: string): (es: seq<string>)
    ensures |es| > 0
    ensures forall k :: 0 <= k < |es| ==> '/' !in es[k]
    decreases |path|
  {
    var j := AfterLastSlash(path, |path|);
    if j == 0 then [path] else Elements(path[..j - 1]) + [path[j..]]
  }

  predicate IsRooted(path: string) {
    |path| > 0 && path[0] == '/'
  }

  /** An element that names a file: not empty, and neither `.` nor `..`. */
  predicate IsName(e: string) {
    e != "" && '/' !in e && e != "." && e != ".."
  }

  /** One element of Clean's scan, given the elements kept so far: empty
      and `.` elements are dropped; `..` removes the last kept name, is kept
      when there is no name to remove, and is dropped at the root. */
  function CleanStep(kept: seq<string>, e: string, rooted: bool): seq<string> {
    if e == "" || e == "." then kept
    else if e == ".." then
      if |kept| > 0 && kept[|kept| - 1] != ".." then kept[..|kept| - 1]
      else if rooted then kept
      else kept + [".."]
    else kept + [e]
  }

  /** The elements Clean keeps, scanning from the left. */
  function Resolve(es: seq<string>, rooted: bool): seq<string> {
    if |es| == 0 then [] else CleanStep(Resolve(es[..|es| - 1], rooted), es[|es| - 1], rooted)
  }

  function JoinElements(kept: seq<string>): string {
    if |kept| == 0 then ""
    else if |kept| == 1 then kept[0]
    else JoinElements(kept[..|kept| - 1]) + "/" + kept[|kept| - 1]
  }

  /** The kept elements written out: a leading '/' for a rooted path, one
      '/' between elements, and "." for nothing at all. */
  function Render(kept: seq<string>, rooted: bool): string {
    var p := (if rooted then "/" else "") + JoinElements(kept);
    if p == "" then "." else p
  }

  /** filepath.Clean: repeated separators, `.` elements, and `..` elements
      together with the name before them are removed, as is `..` right
      after the root; the result has no trailing separator unless it is the
      root, and is "." when nothing is left. */
  function Clean(path: string): (r: string)
    ensures r != []
  {
    Render(Resolve(Elements(path), IsRooted(path)), IsRooted(path))
  }

  /** What Clean keeps: names, and `..` only at the front of a relative
      path (a `..` is first or follows another `..`). */
  predicate Normal(kept: seq<string>, rooted: bool) {
    |kept| == 0 ||
    var front, e := kept[..|kept| - 1], kept[|kept| - 1];
    && Normal(front, rooted)
    && (IsName(e) || (e == ".." && !rooted && (|front| == 0 || front[|front| - 1] == "..")))
  }

  lemma {:induction false} NormalElements(kept: seq<string>, rooted: bool)
    requires Normal(kept, rooted)
    ensures forall k :: 0 <= k < |kept| ==> IsName(kept[k]) || (kept[k] == ".." && !rooted)
  {
    if |kept| > 0 {
      var front := kept[..|kept| - 1];
      NormalElements(front, rooted);
      assert forall k :: 0 <= k < |front| ==> kept[k] == front[k];
    }
  }

  lemma {:induction false} ResolveNormal(es: seq<string>, rooted: bool)
    requires forall k :: 0 <= k < |es| ==> '/' !in es[k]
    ensures Normal(Resolve(es, rooted), rooted)
  {
    if |es| > 0 {
      ResolveNormal(es[..|es| - 1], rooted);
      var kept := Resolve(es[..|es| - 1], rooted);
      var e := es[|es| - 1];
      if e == ".." && |kept| > 0 && kept[|kept| - 1] != ".." {
        assert Normal(kept[..|kept| - 1], rooted);
      } else if e == ".." && !rooted {
        assert (kept + [e])[..|kept|] == kept;
      } else if e != "" && e != "." && e != ".." {
        assert (kept + [e])[..|kept|] == kept;
      }
    }
  }

  /** A '/' and a name after a path add that name to its elements. */
  lemma ElementsSnoc(s: string, name: string)
    requires '/' !in name
    ensures Elements(s + "/" + name) == Elements(s) + [name]
  {
    var p := s + "/" + name;
    assert p[|s| + 1..] == name;
    AfterLastSlashOfSuffix(p, |s| + 1, |p|);
    assert p[..|s|] == s;
  }

  lemma {:induction false} JoinElementsStart(kept: seq<string>)
    requires |kept| > 0 && kept[0] != ""
    ensures |JoinElements(kept)| > 0 && JoinElements(kept)[0] == kept[0][0]
    ensures |kept| > 1 ==> '/' in JoinElements(kept)
  {
    if |kept| > 1 {
      var front := kept[..|kept| - 1];
      JoinElementsStart(front);
      assert JoinElements(kept)[|JoinElements(front)|] == '/';
    }
  }

  /** Clean gives back what it renders: a rendered list of kept elements
      has the same root and the same elements. */
  lemma {:induction false} RenderRoundTrip(kept: seq<string>, rooted: bool)
    requires Normal(kept, rooted)
    ensures IsRooted(Render(kept, rooted)) == rooted
    ensures Resolve(Elements(Render(kept, rooted)), rooted) == kept
  {
    if |kept| == 0 {
      if rooted {
        RenderRoot();
      }
    } else if |kept| == 1 {
      assert kept[..0] == [];
      RenderOne(kept[0], rooted);
    } else {
      var front, e := kept[..|kept| - 1], kept[|kept| - 1];
      assert kept == front + [e];
      RenderRoundTrip(front, rooted);
      RenderSnoc(front, e, rooted);
    }
  }

  lemma RenderRoot()
    ensures Elements("/") == ["", ""]
    ensures Resolve(["", ""], true) == []
    ensures Clean("/") == "/"
  {
    ElementsSnoc("", "");
    assert "" + "/" + "" == "/";
    assert Elements("") == [""];
    assert ["", ""][..1] == [""];
  }

  lemma RenderOne(e: string, rooted: bool)
    requires IsName(e) || (e == ".." && !rooted)
    ensures IsRooted(Render([e], rooted)) == rooted
    ensures Resolve(Elements(Render([e], rooted)), rooted) == [e]
  {
    if rooted {
      RenderOneRooted(e);
    } else {
      RenderOneRelative(e);
    }
  }

  lemma RenderOneRooted(e: string)
    requires IsName(e)
    ensures IsRooted(Render([e], true))
    ensures Resolve(Elements(Render([e], true)), true) == [e]
  {
    assert Render([e], true) == "" + "/" + e;
    ElementsSnoc("", e);
    assert Elements("") == [""];
    ResolveSnoc([""], e, true);
    ResolveSnoc([], "", true);
    assert [""] + [e] == ["", e] && [] + [""] == [""];
  }

  lemma RenderOneRelative(e: string)
    requires IsName(e) || e == ".."
    ensures !IsRooted(Render([e], false))
    ensures Resolve(Elements(Render([e], false)), false) == [e]
  {
    NoSlashAfter(e);
    assert e[0] != '/' by { assert e[0] in e; }
    assert Render([e], false) == e;
    assert Elements(e) == [e];
    ResolveSnoc([], e, false);
    assert [] + [e] == [e];
  }

  lemma RenderSnoc(front: seq<string>, e: string, rooted: bool)
    requires |front| > 0 && Normal(front, rooted)
    requires IsName(e) || (e == ".." && !rooted && front[|front| - 1] == "..")
    requires IsRooted(Render(front, rooted)) == rooted
    requires Resolve(Elements(Render(front, rooted)), rooted) == front
    ensures IsRooted(Render(front + [e], rooted)) == rooted
    ensures Resolve(Elements(Render(front + [e], rooted)), rooted) == front + [e]
  {
    var s := Render(front, rooted);
    RenderAppend(front, e, rooted);
    assert (s + "/" + e)[0] == s[0];
    ElementsSnoc(s, e);
    ResolveSnoc(Elements(s), e, rooted);
  }

  lemma RenderAppend(front: seq<string>, e: string, rooted: bool)
    requires |front| > 0 && Normal(front, rooted)
    requires IsName(e) || (e == ".." && !rooted && front[|front| - 1] == "..")
    ensures |Render(front, rooted)| > 0
    ensures Render(front + [e], rooted) == Render(front, rooted) + "/" + e
  {
    RenderSpelled(front, rooted);
    NormalSnoc(front, e, rooted);
    RenderSpelled(front + [e], rooted);
    JoinElementsSnoc(front, e);
    var pre, a := if rooted then "/" else "", JoinElements(front);
    assert pre + (a + "/" + e) == (pre + a) + "/" + e;
  }

  lemma NormalSnoc(front: seq<string>, e: string, rooted: bool)
    requires Normal(front, rooted)
    requires IsName(e) || (e == ".." && !rooted && (|front| == 0 || front[|front| - 1] == ".."))
    ensures Normal(front + [e], rooted)
  {
    assert (front + [e])[..|front|] == front;
  }

  lemma JoinElementsSnoc(front: seq<string>, e: string)
    requires |front| > 0
    ensures JoinElements(front + [e]) == JoinElements(front) + "/" + e
  {
    assert (front + [e])[..|front|] == front;
  }

  lemma ResolveSnoc(es: seq<string>, e: string, rooted: bool)
    ensures Resolve(es + [e], rooted) == CleanStep(Resolve(es, rooted), e, rooted)
  {
    assert (es + [e])[..|es|] == es;
  }

  /** A non-empty list of kept elements renders without the "." case. */
  lemma RenderSpelled(kept: seq<string>, rooted: bool)
    requires |kept| > 0 && Normal(kept, rooted)
    ensures Render(kept, rooted) == (if rooted then "/" else "") + JoinElements(kept)
    ensures Render(kept, rooted) != "." && Render(kept, rooted) != "/"
    ensures |Render(kept, rooted)| > 0
  {
    NormalElements(kept, rooted);
    JoinElementsStart(kept);
    assert IsName(kept[0]) || kept[0] == "..";
    assert kept[0][0] != '/' by { assert kept[0][0] in kept[0]; }
  }

  /** Clean is idempotent: a cleaned path is left as it is. */
  lemma CleanIdempotent(path: string)
    ensures Clean(Clean(path)) == Clean(path)
  {
    ResolveNormal(Elements(path), IsRooted(path));
    RenderRoundTrip(Resolve(Elements(path), IsRooted(path)), IsRooted(path));
  }

  lemma {:induction false} AfterLastSlashOfSuffix(s: string, k: nat, i: nat)
    requires 0 < k <= i <= |s|
    requires s[k - 1] == '/' && '/' !in s[k..i]
    ensures AfterLastSlash(s, i) == k
    decreases i
  {
    if i > k {
      assert s[i - 1] == s[k..i][i - 1 - k];
      assert s[k..i - 1] == s[k..i][..i - 1 - k];
      AfterLastSlashOfSuffix(s, k, i - 1);
    }
  }

  lemma NoSlashAfter(s: string)
    requires '/' !in s
    ensures AfterLastSlash(s, |s|) == 0
  {
  }

  /** A trailing separator does not change the cleaned path. */
  lemma CleanTrailingSlash(s: string)
    requires s != ""
    ensures Clean(s + "/") == Clean(s)
  {
    ElementsSnoc(s, "");
    var es := Elements(s) + [""];
    assert es[..|es| - 1] == Elements(s);
    assert (s + "/")[0] == s[0];
  }

  /** What Join puts in front of a name: the cleaned directory and a '/',
      nothing for ".", and only the '/' for the root. */
  function DirPrefix(cleanDir: string): string {
    if cleanDir == "." then "" else if cleanDir == "/" then "/" else cleanDir + "/"
  }

  /** Joining a name onto a directory puts it after the cleaned directory. */
  lemma JoinOfName(dir: string, name: string)
    requires IsName(name)
    ensures Join(dir, name) == DirPrefix(Clean(dir)) + name
  {
    if dir == "" {
      NoSlashAfter(name);
      assert Elements("") == [""];
      assert name[0] != '/' by { assert name[0] in name; }
    } else {
      var rooted := IsRooted(dir);
      assert IsRooted(dir + "/" + name) == rooted;
      ElementsSnoc(dir, name);
      ResolveSnoc(Elements(dir), name, rooted);
      var kept := Resolve(Elements(dir), rooted);
      ResolveNormal(Elements(dir), rooted);
      if |kept| > 0 {
        RenderAppend(kept, name, rooted);
        RenderSpelled(kept, rooted);
      }
    }
  }

  /** The directory of a name joined onto a directory is that directory,
      cleaned, and its base is the name. */
  lemma DirBaseOfJoin(dir: string, name: string)
    requires IsName(name)
    ensures Dir(Join(dir, name)) == Clean(dir)
    ensures Base(Join(dir, name)) == name
  {
    JoinOfName(dir, name);
    var c := Clean(dir);
    var x := DirPrefix(c);
    var path := x + name;
    assert path[|x|..] == name;
    assert path[..|x|] == x;
    if x == "" {
      assert '/' !in path;
      NoSlashAfter(path);
    } else {
      AfterLastSlashOfSuffix(path, |x|, |path|);
    }
    assert TrimTrailingSlashes(path) == path;
    if c == "/" {
      RenderRoot();
    } else if c == "." {
      assert Elements("") == [""];
    } else {
      CleanTrailingSlash(c);
      CleanIdempotent(dir);
    }
  }

  lemma NameElements(name: string)
    requires IsName(name)
    ensures Elements(name) == [name] && !IsRooted(name)
  {
    NoSlashAfter(name);
    assert name[0] != '/' by { assert name[0] in name; }
  }

  /** A leading `./` is dropped: `memorex ./talk.mp4` writes its images to
      `talk_memorex_frames`. */
  lemma CleanDotSlash(name: string)
    requires IsName(name)
    ensures Clean("./" + name) == name
  {
    assert "./" + name == "." + "/" + name;
    ElementsSnoc(".", name);
    NoSlashAfter(".");
    ResolveSnoc(["."], name, false);
    assert Resolve(["."], false) == [];
  }

  /** The elements and the kept elements of a path of three pieces. */
  lemma ThreePieces(x: string, y: string, z: string, rooted: bool)
    requires '/' !in x && '/' !in y && '/' !in z
    ensures Elements(x + "/" + y + "/" + z) == [x, y, z]
    ensures Resolve([x, y, z], rooted) == CleanStep(CleanStep(CleanStep([], x, rooted), y, rooted), z, rooted)
  {
    NoSlashAfter(x);
    ElementsSnoc(x, y);
    ElementsSnoc(x + "/" + y, z);
    ResolveThree(x, y, z, rooted);
  }

  lemma ResolveThree(x: string, y: string, z: string, rooted: bool)
    ensures Resolve([x, y, z], rooted) == CleanStep(CleanStep(CleanStep([], x, rooted), y, rooted), z, rooted)
  {
    ResolveSnoc([x, y], z, rooted);
    ResolveSnoc([x], y, rooted);
    ResolveSnoc([], x, rooted);
    assert [x, y] + [z] == [x, y, z] && [x] + [y] == [x, y] && [] + [x] == [x];
  }

  /** A doubled separator becomes one. */
  lemma CleanDoubleSlash(a: string, b: string)
    requires IsName(a) && IsName(b)
    ensures Clean(a + "//" + b) == a + "/" + b
  {
    var p := a + "//" + b;
    assert p == a + "/" + "" + "/" + b;
    ThreePieces(a, "", b, false);
    NameElements(a);
    assert p[0] == a[0];
    assert Resolve([a, "", b], false) == [a] + [b];
    RenderAppend([a], b, false);
    RenderSpelled([a], false);
  }

  /** `..` right after the root is dropped. */
  lemma CleanRootParent(name: string)
    requires IsName(name)
    ensures Clean("/../" + name) == "/" + name
  {
    var p := "/../" + name;
    assert p == "" + "/" + ".." + "/" + name;
    ThreePieces("", "..", name, true);
    assert IsRooted(p);
    assert Resolve(["", "..", name], true) == [name];
    RenderSpelled([name], true);
  }

  /** A `..` removes the name before it, and one with no name before it in
      a relative path stays. */
  lemma CleanParentPastStart(name: string)
    requires IsName(name)
    ensures Clean(name + "/../..") == ".."
  {
    var p := name + "/../..";
    assert p == name + "/" + ".." + "/" + "..";
    ThreePieces(name, "..", "..", false);
    NameElements(name);
    assert p[0] == name[0];
    assert CleanStep([], name, false) == [name];
    assert CleanStep([name], "..", false) == [];
    assert CleanStep([], "..", false) == [".."];
    assert Render([".."], false) == "..";
  }

  /** A file joined onto `./dir` lands in `dir`, as the keyframe images of
      `memorex ./talk.mp4` land in `talk_memorex_frames`. */
  lemma JoinDotSlash(dir: string, name: string)
    requires IsName(dir) && IsName(name)
    ensures Join("./" + dir, name) == dir + "/" + name
    ensures Dir(Join("./" + dir, name)) == dir
  {
    JoinOfName("./" + dir, name);
    CleanDotSlash(dir);
    DirBaseOfJoin("./" + dir, name);
  }

  lemma {:induction false} ExtFromAt(path: string, k: nat, i: nat)
    requires 0 < k <= i <= |path|
    requires path[k - 1] == '.' && '.' !in path[k..] && '/' !in path[k..]
    ensures '.' !in path[i..] && '/' !in path[i..]
    ensures ExtFrom(path, i) == path[k - 1..]
    decreases i
  {
    assert path[i..] == path[k..][i - k..];
    if i > k {
      assert path[i - 1] == path[k..][i - 1 - k];
      ExtFromAt(path, k, i - 1);
    }
  }

  /** A path whose last element ends in `.<letters>` has that extension. */
  lemma ExtOfSuffix(path: string, k: nat)
    requires 0 < k <= |path|
    requires path[k - 1] == '.' && '.' !in path[k..] && '/' !in path[k..]
    ensures Ext(path) == path[k - 1..]
  {
    ExtFromAt(path, k, |path|);
  }
  lemma JoinEndsWithName(dir: string, name: string)
    requires IsName(name)
    ensures |Join(dir, name)| >= |name|
    ensures Join(dir, name)[|Join(dir, name)| - |name|..] == name
  {
    JoinOfName(dir, name);
    var x := DirPrefix(Clean(dir));
    assert (x + name)[|x|..] == name;
  }
}
