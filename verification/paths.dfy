/** A model of POSIX `pathlib.PurePath`: parsing a string into a root flag and
    its components, rendering it back with `str()`, the `name` / `stem` /
    `suffix` properties, `/` for joining a child, and `<` for ordering. */
module Paths {
  import opened Text
  import opened Ordering

  /** A component pathlib keeps: non-empty, slash-free and not `.`. */
  predicate IsPart(s: string) {
    |s| > 0 && '/' !in s && s != "."
  }

  type Part = s: string | IsPart(s) witness "_"

  datatype PurePath = PurePath(absolute: bool, parts: seq<Part>)

  /** The components pathlib keeps from a list of raw segments. */
  function Components(segments: seq<string>): (r: seq<Part>)
    ensures |r| <= |segments|
    ensures forall x: string :: x in r <==> x in segments && IsPart(x)
    decreases |segments|
  {
    if |segments| == 0 then []
    else if IsPart(segments[0]) then [segments[0]] + Components(segments[1..])
    else Components(segments[1..])
  }

  /** `PurePosixPath(s)`: empty and `.` segments vanish; a leading slash makes
      the path absolute. */
  function Parse(s: string): PurePath {
    PurePath(|s| > 0 && s[0] == '/', Components(SplitSlash(s)))
  }

  /** `str(p)` */
  function Render(p: PurePath): string {
    if p.absolute then "/" + Join("/", p.parts)
    else if |p.parts| == 0 then "."
    else Join("/", p.parts)
  }

  lemma {:induction false} ComponentsOfParts(parts: seq<Part>)
    ensures Components(parts) == parts
    decreases |parts|
  {
    if |parts| > 0 {
      ComponentsOfParts(parts[1..]);
      assert [parts[0]] + parts[1..] == parts;
    }
  }

  lemma {:induction false} JoinStartsWithFirst(parts: seq<Part>)
    requires |parts| > 0
    ensures |Join("/", parts)| > 0 && Join("/", parts)[0] == parts[0][0]
    decreases |parts|
  {
    if |parts| > 1 {
      JoinStartsWithFirst(parts[1..]);
    }
  }

  lemma ParseRenderEmpty(p: PurePath)
    requires |p.parts| == 0
    ensures Parse(Render(p)) == p
  {
    if p.absolute {
      assert Render(p) == "/";
      assert SplitSlash("") == [""];
      assert SplitSlash("/") == ["", ""];
      assert Components(["", ""]) == [];
    } else {
      assert Render(p) == ".";
      assert SplitSlash("") == [""];
      SplitNoSlash(".");
      assert Components(["."]) == [];
    }
  }

  lemma ParseRenderNonEmpty(p: PurePath)
    requires |p.parts| > 0
    ensures Parse(Render(p)) == p
  {
    var j := Join("/", p.parts);
    SplitJoin(p.parts);
    ComponentsOfParts(p.parts);
    JoinStartsWithFirst(p.parts);
    if p.absolute {
      SplitAfterSegment("", j);
      assert Render(p) == "" + "/" + j;
      assert Components([""] + p.parts) == Components(p.parts);
    } else {
      assert Render(p) == j;
    }
  }

  /** Every path `str()` renders is read back by `Path(...)` as the same path,
      so rendering loses nothing and two different paths never print alike. */
  lemma ParseRender(p: PurePath)
    ensures Parse(Render(p)) == p
  {
    if |p.parts| == 0 {
      ParseRenderEmpty(p);
    } else {
      ParseRenderNonEmpty(p);
    }
  }

  lemma RenderInjective(p: PurePath, q: PurePath)
    requires Render(p) == Render(q)
    ensures p == q
  {
    ParseRender(p);
    ParseRender(q);
  }

  /** `p / name` for a name pathlib keeps as it is. */
  function Child(p: PurePath, name: Part): PurePath {
    PurePath(p.absolute, p.parts + [name])
  }

  /** `p.name`: the final component, or "" for `/` and `.`. */
  function Name(p: PurePath): string {
    if |p.parts| == 0 then "" else p.parts[|p.parts| - 1]
  }

  /** `s.rfind(c)`: the last position holding `c`, or -1. */
  function LastIndexOf(s: string, c: char): (r: int)
    ensures -1 <= r < |s|
    ensures r >= 0 ==> s[r] == c
    ensures forall k :: r < k < |s| ==> s[k] != c
    decreases |s|
  {
    if |s| == 0 then -1
    else if s[|s| - 1] == c then |s| - 1
    else LastIndexOf(s[..|s| - 1], c)
  }

  /** The last dot of a name lies strictly inside it exactly when the name
      has a dot after its first character and does not end in one. */
  lemma LastDotInside(name: string)
    ensures var d := LastIndexOf(name, '.');
      0 < d < |name| - 1 <==> |name| >= 2 && name[|name| - 1] != '.' && '.' in name[1..]
  {
    var d := LastIndexOf(name, '.');
    if 0 < d < |name| - 1 {
      assert name[1..][d - 1] == '.';
    } else if |name| >= 2 && '.' in name[1..] {
      var k :| 0 <= k < |name| - 1 && name[1..][k] == '.';
      assert name[k + 1] == '.';
    }
  }

  lemma DotTail(name: string, d: int)
    requires 0 <= d < |name| && name[d] == '.'
    requires forall k :: d < k < |name| ==> name[k] != '.'
    ensures name[..d] + name[d..] == name
    ensures '.' !in name[d..][1..]
  {
    assert forall k :: 0 <= k < |name[d..][1..]| ==> name[d..][1..][k] == name[d + 1 + k];
  }

  /** `PurePath.suffix` on a name: from its last dot, provided that dot is
      neither the first nor the final character; "" otherwise. */
  function Suffix(name: string): (r: string)
    ensures Stem(name) + r == name
    ensures r != "" <==> |name| >= 2 && name[|name| - 1] != '.' && '.' in name[1..]
    ensures r != "" ==> |r| >= 2 && r[0] == '.' && '.' !in r[1..]
  {
    var d := LastIndexOf(name, '.');
    LastDotInside(name);
    if 0 < d < |name| - 1 then
      DotTail(name, d);
      name[d..]
    else ""
  }

  /** `PurePath.stem` on a name: the name without its suffix. */
  function Stem(name: string): string {
    var d := LastIndexOf(name, '.');
    if 0 < d < |name| - 1 then name[..d] else name
  }

  /** `Path(path).stem`, the default id of an image. */
  function PathStem(path: string): string {
    Stem(Name(Parse(path)))
  }

  /** `Path(path).suffix` */
  function PathSuffix(path: string): string {
    Suffix(Name(Parse(path)))
  }

  predicate CharLess(x: char, y: char) {
    x < y
  }

  /** Python's `<` on `str`: code point by code point. */
  predicate StrLess(a: string, b: string) {
    LexLess(a, b, CharLess)
  }

  /** `<` on two `PurePosixPath`s: component lists compared lexicographically.
      Absolute paths precede relative ones, as their leading empty component
      makes them do in CPython; the core only ever compares paths that agree
      on this. */
  predicate PathLess(a: PurePath, b: PurePath) {
    if a.absolute != b.absolute then a.absolute
    else LexLess<string>(a.parts, b.parts, StrLess)
  }

  lemma StrLessIsStrictTotal()
    ensures StrictTotalOrder(StrLess)
  {
    LexIsStrictTotal(CharLess);
  }

  lemma PathLessIsStrictTotal()
    ensures StrictTotalOrder(PathLess)
  {
    StrLessIsStrictTotal();
    LexIsStrictTotal(StrLess);
    forall a: PurePath, b: PurePath | a != b ensures PathLess(a, b) || PathLess(b, a) {
      if a.absolute == b.absolute {
        assert a.parts != b.parts;
      }
    }
  }

  /** Children of one directory are ordered by their names alone. */
  lemma ChildOrder(dir: PurePath, x: Part, y: Part)
    ensures PathLess(Child(dir, x), Child(dir, y)) <==> StrLess(x, y)
  {
    LexCommonPrefix<string>(dir.parts, [x], [y], StrLess);
    assert LexLess<string>([x], [y], StrLess) == (x != y && StrLess(x, y)) by {
      assert [x][1..] == [] && [y][1..] == [];
    }
    StrLessIsStrictTotal();
  }
}
