/**
  The default output path of expand_image: the input's parent directory
  joined with stem + "_expanded" + suffix. Paths follow POSIX pathlib: a
  path is a root ("", "/" or "//") and a list of parts, obtained by
  splitting on '/' and dropping empty and "." parts.
 */
module Paths {
  import opened Outcomes

  /** A parsed POSIX path: its root and its parts. */
  datatype PurePath = PurePath(root: string, parts: seq<string>)

  /** s.split('/'): the pieces between the separators, always at least one. */
  function Split(s: string): (r: seq<string>)
    ensures |r| >= 1
    ensures forall i :: 0 <= i < |r| ==> '/' !in r[i]
  {
    if s == [] then [""]
    else
      var rest := Split(s[1..]);
      if s[0] == '/' then [""] + rest else [[s[0]] + rest[0]] + rest[1..]
  }

  /** '/'.join(parts). */
  function Join(parts: seq<string>): string
  {
    if parts == [] then ""
    else if |parts| == 1 then parts[0]
    else parts[0] + "/" + Join(parts[1..])
  }

  /** The parts pathlib keeps: those that are neither empty nor ".". */
  function DropEmpty(parts: seq<string>): (r: seq<string>)
    ensures forall i :: 0 <= i < |r| ==> r[i] != "" && r[i] != "."
    ensures forall c :: c in r ==> c in parts
  {
    if parts == [] then []
    else if parts[0] == "" || parts[0] == "." then DropEmpty(parts[1..])
    else [parts[0]] + DropEmpty(parts[1..])
  }

  /** The root of a POSIX path: exactly two leading slashes are kept as "//", one or three or more become "/". */
  function Root(s: string): string
  {
    if |s| >= 1 && s[0] == '/' then
      if |s| >= 2 && s[1] == '/' && !(|s| >= 3 && s[2] == '/') then "//" else "/"
    else ""
  }

  function Parse(s: string): PurePath
  {
    PurePath(Root(s), DropEmpty(Split(s)))
  }

  /** str(path): the root followed by the parts, or "." for the empty relative path. */
  function Render(p: PurePath): string
  {
    if p.root == "" && p.parts == [] then "." else p.root + Join(p.parts)
  }

  /** A name pathlib keeps as one part. */
  predicate IsComponent(c: string)
  {
    c != "" && c != "." && '/' !in c
  }

  predicate WellFormed(p: PurePath)
  {
    (p.root == "" || p.root == "/" || p.root == "//") &&
    forall i :: 0 <= i < |p.parts| ==> IsComponent(p.parts[i])
  }

  /** path.name: the last part, or "" when there is none. */
  function Name(p: PurePath): string
  {
    if p.parts == [] then "" else p.parts[|p.parts| - 1]
  }

  /** path.parent: the path without its last part; a path without parts is its own parent. */
  function Parent(p: PurePath): PurePath
  {
    if p.parts == [] then p else PurePath(p.root, p.parts[..|p.parts| - 1])
  }

  /** str.rfind: the index of the last occurrence of c in s, or -1. */
  function LastIndexOf(s: string, c: char): (i: int)
    ensures -1 <= i < |s|
    ensures i >= 0 ==> s[i] == c
    ensures forall j :: i < j < |s| ==> s[j] != c
  {
    if s == [] then -1
    else if s[|s| - 1] == c then |s| - 1
    else LastIndexOf(s[..|s| - 1], c)
  }

  /** path.suffix: from the last dot on, when that dot is neither the first nor the last character. */
  function Suffix(name: string): string
  {
    var i := LastIndexOf(name, '.');
    if 0 < i < |name| - 1 then name[i..] else ""
  }

  /** path.stem: the name without its suffix. */
  function Stem(name: string): string
  {
    var i := LastIndexOf(name, '.');
    if 0 < i < |name| - 1 then name[..i] else name
  }

  /** The new file name: f"{stem}_expanded{suffix}". */
  function ExpandedName(name: string): string
  {
    Stem(name) + "_expanded" + Suffix(name)
  }

  /** str(input.parent / ExpandedName(input.name)). */
  function DefaultOutputPath(input: string): string
  {
    var p := Parse(input);
    var dir := Parent(p);
    Render(PurePath(dir.root, dir.parts + [ExpandedName(Name(p))]))
  }

  /** The path expand_image saves to and returns: the one supplied, else the default. */
  function OutputPath(input: string, output: Option<string>): (r: string)
    ensures output.Some? ==> r == output.value
  {
    match output
    case Some(o) => o
    case None => DefaultOutputPath(input)
  }

  /** The stem and the suffix together give back the name. */
  lemma StemSuffix(name: string)
    ensures Stem(name) + Suffix(name) == name
  {
  }

  /** A name with a suffix keeps it: the new name has the same suffix and the old stem followed by "_expanded" as its stem. */
  lemma ExpandedNameKeepsSuffix(name: string)
    requires Suffix(name) != ""
    ensures Suffix(ExpandedName(name)) == Suffix(name)
    ensures Stem(ExpandedName(name)) == Stem(name) + "_expanded"
  {
    var i := LastIndexOf(name, '.');
    var e := ExpandedName(name);
    assert e == name[..i] + "_expanded" + name[i..];
    var k := i + 9;
    assert e[k] == '.';
    forall j | k < j < |e|
      ensures e[j] != '.'
    {
      assert e[j] == name[j - 9];
    }
    var m := LastIndexOf(e, '.');
    assert m == k;
    assert e[k..] == name[i..];
    assert e[..k] == name[..i] + "_expanded";
  }

  /** A name without a suffix and without a final dot gets "_expanded" appended to the whole name, and still has no suffix. */
  lemma ExpandedNameWithoutSuffix(name: string)
    requires Suffix(name) == "" && (name == [] || name[|name| - 1] != '.')
    ensures ExpandedName(name) == name + "_expanded"
    ensures Suffix(ExpandedName(name)) == ""
  {
  }

  /**
    A name ending in a dot, such as "a.", has no suffix, but its expanded
    name does: the final dot is no longer last, so "a." becomes "a._expanded"
    with the suffix "._expanded".
   */
  lemma ExpandedNameAfterFinalDot(name: string)
    requires |name| >= 2 && name[|name| - 1] == '.'
    ensures Suffix(name) == ""
    ensures ExpandedName(name) == name + "_expanded"
    ensures Suffix(ExpandedName(name)) == "." + "_expanded"
  {
    var e := name + "_expanded";
    var k := |name| - 1;
    assert e[k] == '.';
    forall j | k < j < |e|
      ensures e[j] != '.'
    {
    }
    assert LastIndexOf(e, '.') == k;
    assert e[k..] == "." + "_expanded";
  }

  lemma {:induction false} SplitComponent(c: string)
    requires '/' !in c
    ensures Split(c) == [c]
  {
    if c != [] {
      SplitComponent(c[1..]);
      assert [c[0]] + c[1..] == c;
    }
  }

  /** Splitting at one separator splits the two sides independently. */
  lemma {:induction false} SplitAtSeparator(a: string, b: string)
    ensures Split(a + "/" + b) == Split(a) + Split(b)
  {
    if a == [] {
      assert a + "/" + b == "/" + b;
      assert ("/" + b)[1..] == b;
    } else {
      var s := a + "/" + b;
      assert s[0] == a[0];
      assert s[1..] == a[1..] + "/" + b;
      SplitAtSeparator(a[1..], b);
    }
  }

  /** Joining parts without separators and splitting again gives back the parts. */
  lemma {:induction false} SplitJoin(parts: seq<string>)
    requires |parts| >= 1
    requires forall i :: 0 <= i < |parts| ==> '/' !in parts[i]
    ensures Split(Join(parts)) == parts
  {
    if |parts| == 1 {
      SplitComponent(parts[0]);
    } else {
      SplitJoin(parts[1..]);
      SplitAtSeparator(parts[0], Join(parts[1..]));
      SplitComponent(parts[0]);
      assert [parts[0]] + parts[1..] == parts;
    }
  }

  lemma {:induction false} DropEmptyKeepsComponents(parts: seq<string>)
    requires forall i :: 0 <= i < |parts| ==> IsComponent(parts[i])
    ensures DropEmpty(parts) == parts
  {
    if parts != [] {
      DropEmptyKeepsComponents(parts[1..]);
      assert [parts[0]] + parts[1..] == parts;
    }
  }

  /** The joined parts start with the first part. */
  lemma JoinStartsWithFirst(parts: seq<string>)
    requires |parts| >= 1
    ensures |Join(parts)| >= |parts[0]| && Join(parts)[..|parts[0]|] == parts[0]
  {
  }

  /** Rendering a well-formed path and parsing it again gives back that path. */
  lemma ParseRender(p: PurePath)
    requires WellFormed(p)
    ensures Parse(Render(p)) == p
  {
    var s := Render(p);
    if p.root == "" && p.parts == [] {
      SplitComponent(".");
    } else {
      var j := Join(p.parts);
      if p.parts != [] {
        JoinStartsWithFirst(p.parts);
        assert j[0] == p.parts[0][0];
        SplitJoin(p.parts);
        DropEmptyKeepsComponents(p.parts);
      } else {
        assert Split(j) == [""];
        assert DropEmpty([""]) == DropEmpty([""][1..]) == [];
      }
      assert Root(s) == p.root;
      if p.root == "" {
        assert s == j;
      } else if p.root == "/" {
        assert s[1..] == j;
        assert Split(s) == [""] + Split(j);
        assert ([""] + Split(j))[1..] == Split(j);
        assert DropEmpty(Split(s)) == DropEmpty(Split(j));
      } else {
        assert s[1..] == "/" + j;
        assert s[1..][1..] == j;
        assert Split(s[1..]) == [""] + Split(j);
        assert Split(s) == [""] + ([""] + Split(j));
        assert ([""] + ([""] + Split(j)))[1..] == [""] + Split(j);
        assert ([""] + Split(j))[1..] == Split(j);
        assert DropEmpty(Split(s)) == DropEmpty(Split(j));
      }
    }
  }

  /** Every parsed path is well formed. */
  lemma ParseWellFormed(s: string)
    ensures WellFormed(Parse(s))
  {
    var parts := DropEmpty(Split(s));
    forall i | 0 <= i < |parts|
      ensures IsComponent(parts[i])
    {
      assert parts[i] in parts;
    }
  }

  /** A name taken from a parsed path is turned into a single new part. */
  lemma ExpandedNameIsComponent(name: string)
    requires name == "" || IsComponent(name)
    ensures IsComponent(ExpandedName(name))
  {
  }

  /**
    The default output lies in the input's directory: parsing it again
    gives the input's parent, and its name is the expanded name.
   */
  lemma DefaultOutputInSameDirectory(input: string)
    ensures Parent(Parse(DefaultOutputPath(input))) == Parent(Parse(input))
    ensures Name(Parse(DefaultOutputPath(input))) == ExpandedName(Name(Parse(input)))
  {
    var p := Parse(input);
    ParseWellFormed(input);
    var dir := Parent(p);
    ExpandedNameIsComponent(Name(p));
    var q := PurePath(dir.root, dir.parts + [ExpandedName(Name(p))]);
    assert WellFormed(q);
    ParseRender(q);
    assert q.parts[..|q.parts| - 1] == dir.parts;
  }
}
