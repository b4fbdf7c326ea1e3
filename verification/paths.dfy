/**
 * Paths as sequences of components, and the lexical normalisation of
 * `Normalize::normalize` (src/path.rs): a stack machine that drops `.`,
 * lets `..` cancel a preceding normal segment, absorbs `..` directly after
 * the root, and returns `.` when nothing is left.
 *
 * Also the few `PathBuf` operations the planners rely on: `join`/`push`,
 * `set_extension`, `parent` and display.
 */
module Paths {
  import opened Base

  /** A file-name segment; the component parser never yields an empty one. */
  type Name = s: string | |s| > 0 witness "_"

  datatype Component =
    | Prefix(prefix: string)
    | RootDir
    | CurDir
    | ParentDir
    | Normal(name: Name)

  type Path = seq<Component>

  predicate NoCurDir(p: Path) {
    forall i :: 0 <= i < |p| ==> !p[i].CurDir?
  }

  /** Every `..` sits at the start, or right after a prefix or another `..`. */
  predicate ParentsPiledUp(p: Path) {
    forall i, j :: 0 <= i < |p| && j == i + 1 && j < |p| && p[j].ParentDir? ==> p[i].Prefix? || p[i].ParentDir?
  }

  /** The shape of every stack the normaliser can build. */
  predicate IsNormalForm(p: Path) {
    NoCurDir(p) && ParentsPiledUp(p)
  }

  /** One iteration of the normaliser's loop over `components()`. */
  function Step(stack: Path, c: Component): (r: Path)
    requires NoCurDir(stack)
    ensures NoCurDir(r)
    ensures ParentsPiledUp(stack) ==> ParentsPiledUp(r)
  {
    match c
    case CurDir => stack
    case ParentDir =>
      if |stack| == 0 then stack + [c]
      else (
        match stack[|stack| - 1]
        case Prefix(_) => stack + [c]
        case RootDir => stack
        case CurDir => assert false; stack
        case ParentDir => stack + [c]
        case Normal(_) => stack[..|stack| - 1]
      )
    case _ => stack + [c]
  }

  /** The stack after the whole input has been consumed. */
  function NormStack(p: Path): (r: Path)
    ensures IsNormalForm(r)
    ensures |r| <= |p|
    decreases |p|
  {
    if |p| == 0 then []
    else Step(NormStack(p[..|p| - 1]), p[|p| - 1])
  }

  /** `Normalize::normalize`: the stack, or `.` when it ends up empty. */
  function Normalize(p: Path): (r: Path)
    ensures |r| > 0
    ensures r == [CurDir] || IsNormalForm(r)
    ensures CurDir in r ==> r == [CurDir]
    ensures |p| > 0 ==> |r| <= |p|
  {
    var stack := NormStack(p);
    if |stack| == 0 then [CurDir] else stack
  }

  // ---------------------------------------------------------------------------
  // Laws of the stack machine

  /** Consuming one more component is one more `Step`. */
  lemma NormStackSnoc(p: Path, c: Component)
    ensures NormStack(p + [c]) == Step(NormStack(p), c)
  {
    assert (p + [c])[..|p|] == p;
  }

  /** `.` is dropped. */
  lemma NormStackDropsCurDir(p: Path)
    ensures NormStack(p + [CurDir]) == NormStack(p)
  {
    assert (p + [CurDir])[..|p|] == p;
  }

  /** `..` pops a normal segment on top of the stack: `x/a/..` is `x`. */
  lemma NormStackCancelsNormal(p: Path, n: Name)
    ensures NormStack(p + [Normal(n), ParentDir]) == NormStack(p)
  {
    var q := p + [Normal(n)];
    assert (p + [Normal(n), ParentDir])[..|q|] == q;
    assert q[..|p|] == p;
  }

  /** `..` directly on top of the root is dropped: the parent of `/` is `/`. */
  lemma NormStackRootAbsorbsParent(p: Path)
    requires |NormStack(p)| > 0 && NormStack(p)[|NormStack(p)| - 1] == RootDir
    ensures NormStack(p + [ParentDir]) == NormStack(p)
  {
    var s := NormStack(p);
    NormStackSnoc(p, ParentDir);
    assert Step(s, ParentDir) == s;
  }

  /** `..` with nothing to cancel is kept: on an empty stack, after a prefix, or after `..`. */
  lemma NormStackKeepsLeadingParent(p: Path)
    requires var s := NormStack(p); |s| == 0 || s[|s| - 1].Prefix? || s[|s| - 1].ParentDir?
    ensures NormStack(p + [ParentDir]) == NormStack(p) + [ParentDir]
  {
    var s := NormStack(p);
    NormStackSnoc(p, ParentDir);
    assert Step(s, ParentDir) == s + [ParentDir];
  }

  /** `a/./b/../c` normalises to `a/c`. */
  lemma NormalizeExampleCancel()
    ensures Normalize([Normal("a"), CurDir, Normal("b"), ParentDir, Normal("c")]) == [Normal("a"), Normal("c")]
  {
    var a, b, c := Normal("a"), Normal("b"), Normal("c");
    NormStackSnoc([], a);
    assert NormStack([a]) == [a];
    NormStackSnoc([a], CurDir);
    assert NormStack([a, CurDir]) == [a];
    NormStackSnoc([a, CurDir], b);
    assert [a, CurDir] + [b] == [a, CurDir, b];
    assert [a] + [b] == [a, b];
    assert NormStack([a, CurDir, b]) == [a, b];
    NormStackSnoc([a, CurDir, b], ParentDir);
    assert [a, CurDir, b] + [ParentDir] == [a, CurDir, b, ParentDir];
    assert [a, b][..1] == [a];
    assert NormStack([a, CurDir, b, ParentDir]) == [a];
    NormStackSnoc([a, CurDir, b, ParentDir], c);
    assert [a, CurDir, b, ParentDir] + [c] == [a, CurDir, b, ParentDir, c];
  }

  /** `../a/b` is already normal: leading `..` are kept. */
  lemma NormalizeExampleLeadingParent()
    ensures Normalize([ParentDir, Normal("a"), Normal("b")]) == [ParentDir, Normal("a"), Normal("b")]
  {
    var a, b := Normal("a"), Normal("b");
    NormStackSnoc([], ParentDir);
    assert NormStack([ParentDir]) == [ParentDir];
    NormStackSnoc([ParentDir], a);
    assert [ParentDir] + [a] == [ParentDir, a];
    assert NormStack([ParentDir, a]) == [ParentDir, a];
    NormStackSnoc([ParentDir, a], b);
    assert [ParentDir, a] + [b] == [ParentDir, a, b];
  }

  /** `/..` normalises to `/`, and `a/..` to `.`. */
  lemma NormalizeExampleRootAndEmpty()
    ensures Normalize([RootDir, ParentDir]) == [RootDir]
    ensures Normalize([Normal("a"), ParentDir]) == [CurDir]
  {
    NormStackSnoc([], RootDir);
    assert NormStack([RootDir]) == [RootDir];
    NormStackSnoc([RootDir], ParentDir);
    NormStackSnoc([], Normal("a"));
    assert NormStack([Normal("a")]) == [Normal("a")];
    NormStackSnoc([Normal("a")], ParentDir);
  }

  // ---------------------------------------------------------------------------
  // Idempotence

  /** A path already in normal form is reproduced by the stack machine unchanged. */
  lemma {:induction false} NormalFormIsFixed(s: Path)
    requires IsNormalForm(s)
    ensures NormStack(s) == s
    decreases |s|
  {
    if |s| > 0 {
      var init := s[..|s| - 1];
      assert IsNormalForm(init) by {
        forall i, j | 0 <= i < |init| && j == i + 1 && j < |init| && init[j].ParentDir?
          ensures init[i].Prefix? || init[i].ParentDir?
        {
          assert s[i] == init[i] && s[j] == init[j];
        }
      }
      NormalFormIsFixed(init);
      var c := s[|s| - 1];
      assert !c.CurDir?;
      assert s == init + [c];
      if c.ParentDir? && |s| > 1 {
        assert s[|s| - 2].Prefix? || s[|s| - 2].ParentDir?;
      }
    }
  }

  /** Normalising a normalised path returns it unchanged. */
  lemma NormalizeIdempotent(p: Path)
    ensures Normalize(Normalize(p)) == Normalize(p)
  {
    var s := NormStack(p);
    if |s| == 0 {
      assert NormStack([CurDir]) == Step(NormStack([]), CurDir);
    } else {
      NormalFormIsFixed(s);
    }
  }

  /** The fixed points of normalisation are exactly `.` and the non-empty normal forms. */
  lemma NormalizeFixedPoints(p: Path)
    ensures Normalize(p) == p <==> (p == [CurDir] || (|p| > 0 && IsNormalForm(p)))
  {
    if p == [CurDir] {
      assert NormStack([CurDir]) == Step(NormStack([]), CurDir);
    } else if |p| > 0 && IsNormalForm(p) {
      NormalFormIsFixed(p);
    }
  }

  /** No normal segment is ever directly followed by `..` in a normalised path. */
  lemma NormalizeLeavesNoCancellation(p: Path)
    ensures var n := Normalize(p);
            forall i, j :: 0 <= i < |n| && j == i + 1 && j < |n| && n[j].ParentDir? ==> !n[i].Normal?
  {
  }

  // ---------------------------------------------------------------------------
  // What normalisation keeps

  /** The output consists of input components, unchanged and in input order. */
  lemma {:induction false} NormStackIsSubsequence(p: Path)
    ensures IsSubsequence(NormStack(p), p)
    decreases |p|
  {
    if |p| > 0 {
      var init := p[..|p| - 1];
      var c := p[|p| - 1];
      var s := NormStack(init);
      NormStackIsSubsequence(init);
      assert p == init + [c];
      SubsequenceExtendRight(s, init, c);
      if c.ParentDir? && |s| > 0 && s[|s| - 1].Normal? {
        SubsequenceDropLast(s, init);
        SubsequenceExtendRight(s[..|s| - 1], init, c);
      }
    }
  }

  /** Normalisation invents nothing: every component of the result comes from the input,
      except the `.` that stands for an empty result. */
  lemma NormalizeInventsNothing(p: Path)
    ensures forall c :: c in Normalize(p) ==> c in p || Normalize(p) == [CurDir]
  {
    NormStackIsSubsequence(p);
    SubsequenceMembers(NormStack(p), p);
  }

  predicate IsAnchor(c: Component) {
    c.Prefix? || c.RootDir?
  }

  /** The prefix and root components of a path, in order. */
  function Anchors(p: Path): (r: Path)
    decreases |p|
  {
    if |p| == 0 then []
    else Anchors(p[..|p| - 1]) + (if IsAnchor(p[|p| - 1]) then [p[|p| - 1]] else [])
  }

  lemma AnchorsAppend(p: Path, c: Component)
    ensures Anchors(p + [c]) == Anchors(p) + (if IsAnchor(c) then [c] else [])
  {
    assert (p + [c])[..|p|] == p;
  }

  /** Prefixes and roots are never cancelled: normalisation keeps exactly those of the input. */
  lemma {:induction false} NormStackKeepsAnchors(p: Path)
    ensures Anchors(NormStack(p)) == Anchors(p)
    decreases |p|
  {
    if |p| > 0 {
      var init := p[..|p| - 1];
      var c := p[|p| - 1];
      var s := NormStack(init);
      NormStackKeepsAnchors(init);
      AnchorsAppend(s, c);
      if c.ParentDir? && |s| > 0 && s[|s| - 1].Normal? {
        assert s == s[..|s| - 1] + [s[|s| - 1]];
        AnchorsAppend(s[..|s| - 1], s[|s| - 1]);
      }
    }
  }

  // ---------------------------------------------------------------------------
  // PathBuf operations used by the planners

  /** A path whose first component is a root or a prefix replaces whatever it is joined to. */
  predicate IsAbsolute(p: Path) {
    |p| > 0 && IsAnchor(p[0])
  }

  function DropCurDir(p: Path): (r: Path)
    ensures NoCurDir(r)
    ensures NoCurDir(p) ==> r == p
    decreases |p|
  {
    if |p| == 0 then []
    else DropCurDir(p[..|p| - 1]) + (if p[|p| - 1].CurDir? then [] else [p[|p| - 1]])
  }

  /** `PathBuf::join` seen through `components()`: an absolute path replaces the base,
      an empty base yields the pushed path, otherwise the components are appended
      (interior `.` components vanish when the result is read back). */
  function Join(base: Path, p: Path): (r: Path)
    ensures IsAbsolute(p) ==> r == p
    ensures !IsAbsolute(p) && |base| > 0 ==> r == base + DropCurDir(p)
    ensures !IsAbsolute(p) && NoCurDir(p) ==> r == base + p
  {
    if IsAbsolute(p) then p
    else if |base| == 0 then p
    else base + DropCurDir(p)
  }

  /** Index of the last `.` in `s`, or -1. */
  function LastDot(s: string): (r: int)
    ensures -1 <= r < |s|
    ensures r >= 0 ==> s[r] == '.'
    ensures forall j :: r < j < |s| ==> s[j] != '.'
    decreases |s|
  {
    if |s| == 0 then -1
    else if s[|s| - 1] == '.' then |s| - 1
    else LastDot(s[..|s| - 1])
  }

  /** `file_stem`: the name up to its last `.`, unless that dot is the first character. */
  function Stem(n: Name): (r: Name)
    ensures |r| <= |n| && r == n[..|r|]
    ensures LastDot(n) <= 0 <==> r == n
  {
    var i := LastDot(n);
    if i > 0 then n[..i] else n
  }

  /** `extension`: what follows the last `.`, empty when `Stem` is the whole name. */
  function Extension(n: Name): (r: string)
    ensures '.' !in r
    ensures LastDot(n) > 0 ==> n == Stem(n) + "." + r
    ensures LastDot(n) <= 0 ==> r == ""
  {
    var i := LastDot(n);
    if i > 0 then n[i + 1..] else ""
  }

  /** The file name `set_extension(ext)` leaves. */
  function WithExtension(n: Name, ext: string): (r: Name)
    ensures |r| == |Stem(n)| + (if ext == "" then 0 else |ext| + 1)
    ensures r[..|Stem(n)|] == Stem(n)
    ensures ext == "" ==> r == Stem(n)
    ensures ext != "" ==> r[|Stem(n)|] == '.' && r[|Stem(n)| + 1..] == ext
  {
    Stem(n) + (if ext == "" then "" else "." + ext)
  }

  /** A name is its stem with its own extension set again. */
  lemma WithOwnExtension(n: Name)
    requires Extension(n) != ""
    ensures WithExtension(n, Extension(n)) == n
  {
  }

  /** `set_extension` reads back what it wrote: the stem is kept and the extension is `ext`. */
  lemma WithExtensionRoundTrip(n: Name, ext: string)
    requires ext != "" && '.' !in ext
    ensures Stem(WithExtension(n, ext)) == Stem(n)
    ensures Extension(WithExtension(n, ext)) == ext
  {
    var s := Stem(n);
    var m := WithExtension(n, ext);
    assert m == s + "." + ext;
    assert m[|s|] == '.';
    var i := LastDot(m);
    assert i == |s|;
    assert m[..i] == s;
    assert m[i + 1..] == ext;
  }

  /** `PathBuf::set_extension`: rewrites the final component when it is a normal name. */
  function SetExtension(p: Path, ext: string): (r: Path)
    ensures |r| == |p|
    ensures |p| > 0 ==> r[..|p| - 1] == p[..|p| - 1]
    ensures |p| > 0 && p[|p| - 1].Normal? ==> r[|p| - 1] == Normal(WithExtension(p[|p| - 1].name, ext))
    ensures (|p| == 0 || !p[|p| - 1].Normal?) ==> r == p
  {
    if |p| > 0 && p[|p| - 1].Normal? then p[..|p| - 1] + [Normal(WithExtension(p[|p| - 1].name, ext))]
    else p
  }

  /** Setting a dot-free extension and then another is the same as setting only the second. */
  lemma SetExtensionTwice(p: Path, e1: string, e2: string)
    requires e1 != "" && '.' !in e1
    ensures SetExtension(SetExtension(p, e1), e2) == SetExtension(p, e2)
  {
    if |p| > 0 && p[|p| - 1].Normal? {
      WithExtensionRoundTrip(p[|p| - 1].name, e1);
    }
  }

  /** `set_extension` touches only the last component: it keeps the anchor and adds no `.`. */
  lemma SetExtensionKeepsShape(p: Path, ext: string)
    ensures IsAbsolute(SetExtension(p, ext)) <==> IsAbsolute(p)
    ensures NoCurDir(p) ==> NoCurDir(SetExtension(p, ext))
  {
    var r := SetExtension(p, ext);
    if |p| > 1 {
      assert r[0] == r[..|p| - 1][0] == p[..|p| - 1][0] == p[0];
    }
    if NoCurDir(p) {
      forall i | 0 <= i < |r| ensures !r[i].CurDir? {
        if i < |p| - 1 { assert r[i] == r[..|p| - 1][i] == p[..|p| - 1][i] == p[i]; }
      }
    }
  }

  /** Setting the extension a name already has changes nothing. */
  lemma SetExtensionFixed(p: Path, ext: string)
    requires |p| > 0 && p[|p| - 1].Normal? && WithExtension(p[|p| - 1].name, ext) == p[|p| - 1].name
    ensures SetExtension(p, ext) == p
  {
    SnocSplit(p);
  }

  /** A single file name joins as one more component and takes an extension in place. */
  lemma SingleName(base: Path, n: Name, ext: string)
    ensures Join(base, [Normal(n)]) == base + [Normal(n)]
    ensures SetExtension([Normal(n)], ext) == [Normal(WithExtension(n, ext))]
  {
    var p := [Normal(n)];
    assert !IsAbsolute(p) && NoCurDir(p);
    EmptyConcat([Normal(WithExtension(n, ext))]);
  }

  /** Under a base, `set_extension` acts on the appended part alone. */
  lemma SetExtensionUnderBase(base: Path, p: Path, ext: string)
    requires |p| > 0
    ensures SetExtension(base + p, ext) == base + SetExtension(p, ext)
  {
    var q := base + p;
    assert q[|q| - 1] == p[|p| - 1];
    if p[|p| - 1].Normal? {
      assert q[..|q| - 1] == base + p[..|p| - 1];
      AppendAssoc(base, p[..|p| - 1], [Normal(WithExtension(p[|p| - 1].name, ext))]);
    }
  }

  /** `Path::parent`: the path without its final component, unless it ends in a root or prefix. */
  function Parent(p: Path): (r: Option<Path>)
    ensures r.Some? <==> |p| > 0 && !IsAnchor(p[|p| - 1])
    ensures r.Some? ==> r.value + [p[|p| - 1]] == p
  {
    if |p| > 0 && !IsAnchor(p[|p| - 1]) then Some(p[..|p| - 1]) else None
  }

  function ComponentText(c: Component): string {
    match c
    case Prefix(s) => s
    case RootDir => "/"
    case CurDir => "."
    case ParentDir => ".."
    case Normal(n) => n
  }

  /** `display().to_string()` with `/` as the separator. */
  function Display(p: Path): (text: string)
    ensures |p| == 0 ==> text == ""
    ensures |p| > 0 && p[0].RootDir? ==> |text| > 0 && text[0] == '/'
    decreases |p|
  {
    if |p| == 0 then ""
    else
      var init := p[..|p| - 1];
      var sep := if |init| == 0 || IsAnchor(init[|init| - 1]) then "" else "/";
      Display(init) + sep + ComponentText(p[|p| - 1])
  }

  /** Every path as displayed, in order. */
  function DisplayAll(ps: seq<Path>): (texts: seq<string>)
    ensures |texts| == |ps|
    ensures forall i :: 0 <= i < |ps| ==> texts[i] == Display(ps[i])
  {
    seq(|ps|, i requires 0 <= i < |ps| => Display(ps[i]))
  }

  /** Joins segments with `/` between neighbours. */
  function Unsplit(segs: seq<string>): string
    requires |segs| >= 1
    decreases |segs|
  {
    if |segs| == 1 then segs[0] else segs[0] + "/" + Unsplit(segs[1..])
  }

  /** The `/`-separated segments of a string, empty ones included. */
  function Segments(s: string): (segs: seq<string>)
    ensures |segs| >= 1
    ensures forall i :: 0 <= i < |segs| ==> '/' !in segs[i]
    ensures Unsplit(segs) == s
    decreases |s|
  {
    if |s| == 0 then [""]
    else
      var rest := Segments(s[1..]);
      if s[0] == '/' then
        assert s == "" + "/" + s[1..];
        [""] + rest
      else
        var segs := [[s[0]] + rest[0]] + rest[1..];
        assert segs[1..] == rest[1..];
        assert s == [s[0]] + s[1..];
        segs
  }

  /** The component one segment contributes: empty segments vanish, and `.` survives
      only as the first segment of a relative path. */
  function SegmentComponents(seg: string, leading: bool): seq<Component> {
    if seg == "" then []
    else if seg == "." then (if leading then [CurDir] else [])
    else if seg == ".." then [ParentDir]
    else [Normal(seg)]
  }

  function SegmentsToPath(segs: seq<string>, leading: bool): (p: Path)
    requires forall i :: 0 <= i < |segs| ==> '/' !in segs[i]
    ensures forall i :: 0 <= i < |p| ==> p[i].CurDir? || p[i].ParentDir? || p[i].Normal?
    ensures forall i :: 0 <= i < |p| && p[i].CurDir? ==> i == 0 && leading
    ensures forall i :: 0 <= i < |p| && p[i].Normal? ==> '/' !in p[i].name && p[i].name != "." && p[i].name != ".."
    decreases |segs|
  {
    if |segs| == 0 then []
    else SegmentComponents(segs[0], leading) + SegmentsToPath(segs[1..], false)
  }

  /** `PathBuf::from` a string, read back through `components()` with `/` as the only
      separator: a leading `/` is the root, empty and interior `.` segments vanish. */
  function ParsePath(s: string): (p: Path)
    ensures (|p| > 0 && p[0].RootDir?) <==> (|s| > 0 && s[0] == '/')
    ensures forall i :: 0 <= i < |p| ==> !p[i].Prefix? && (i > 0 ==> !p[i].RootDir? && !p[i].CurDir?)
    ensures forall i :: 0 <= i < |p| && p[i].Normal? ==> '/' !in p[i].name && p[i].name != "." && p[i].name != ".."
  {
    var segs := Segments(s);
    if |s| > 0 && s[0] == '/' then [RootDir] + SegmentsToPath(segs[1..], false)
    else SegmentsToPath(segs, true)
  }

  /** A string without separators is read as at most one component. */
  lemma {:induction false} SegmentsOfPlainName(s: string)
    requires '/' !in s
    ensures Segments(s) == [s]
    decreases |s|
  {
    if |s| > 0 {
      SegmentsOfPlainName(s[1..]);
      assert [s[0]] + s[1..] == s;
    }
  }

  lemma ParsePlainName(s: string)
    requires '/' !in s
    ensures s == "" ==> ParsePath(s) == []
    ensures s == "." ==> ParsePath(s) == [CurDir]
    ensures s == ".." ==> ParsePath(s) == [ParentDir]
    ensures s != "" && s != "." && s != ".." ==> ParsePath(s) == [Normal(s)]
  {
    SegmentsOfPlainName(s);
    if |s| > 0 {
      assert s[0] in s;
    }
    assert [s][1..] == [];
    assert SegmentsToPath([s], true) == SegmentComponents(s, true);
  }
}
