/** The name of the written file: the upload's base name with its last
    extension replaced by `.ply` (`os.path.basename` then
    `os.path.splitext`, POSIX rules). */
module Paths {
  import opened Common

  /** The part of a path after its last `/`. */
  function BaseName(p: string): (b: string)
    ensures '/' !in b
    ensures |b| <= |p| && b == p[|p| - |b|..]
    ensures |b| < |p| ==> p[|p| - |b| - 1] == '/'
  {
    if p == [] || p[|p| - 1] == '/' then []
    else
      var init := p[..|p| - 1];
      var b := BaseName(init) + [p[|p| - 1]];
      assert init[|init| - |b| + 1..] + [p[|p| - 1]] == p[|p| - |b|..];
      b
  }

  /** Position of the last `.` in `s`. */
  function LastDot(s: string): (k: Option<nat>)
    ensures k.None? ==> '.' !in s
    ensures k.Some? ==> k.value < |s| && s[k.value] == '.' && '.' !in s[k.value + 1..]
    ensures k.Some? ==> forall j | k.value < j < |s| :: s[j] != '.'
  {
    if s == [] then None
    else if s[|s| - 1] == '.' then Some(|s| - 1)
    else
      var k := LastDot(s[..|s| - 1]);
      assert s == s[..|s| - 1] + [s[|s| - 1]];
      k
  }

  /** Splits a base name into root and extension at its last `.`, unless
      everything before that dot is dots (a hidden file such as `.csv` has no
      extension). Root and extension put back together give the base name,
      and the extension is empty or a single dot followed by dot-free text. */
  function SplitExt(b: string): (r: (string, string))
    ensures r.0 + r.1 == b
    ensures r.1 == [] || (r.1[0] == '.' && '.' !in r.1[1..])
  {
    match LastDot(b)
    case None => (b, "")
    case Some(k) =>
      assert b[k..][1..] == b[k + 1..];
      assert b[..k] + b[k..] == b;
      if exists i | 0 <= i < k :: b[i] != '.' then (b[..k], b[k..]) else (b, "")
  }

  /** The extension is non-empty exactly when some dot of the base name has
      a non-dot character before it; the root then is not all dots. */
  lemma SplitExtFindsExtension(b: string)
    ensures SplitExt(b).1 != [] <==> exists i, k | 0 <= i < k < |b| :: b[i] != '.' && b[k] == '.'
    ensures SplitExt(b).1 != [] ==> exists i | 0 <= i < |SplitExt(b).0| :: SplitExt(b).0[i] != '.'
  {
    match LastDot(b)
    case None =>
    case Some(d) =>
      if exists i | 0 <= i < d :: b[i] != '.' {
        var i :| 0 <= i < d && b[i] != '.';
        assert SplitExt(b).0 == b[..d];
        assert SplitExt(b).0[i] != '.';
      } else {
        forall i, k | 0 <= i < k < |b| && b[i] != '.'
          ensures b[k] != '.'
        {
          assert k > d;
        }
      }
  }

  /** The output file name for an uploaded file name: it never holds a
      directory separator and always ends in `.ply`. */
  function OutputName(filename: string): (o: string)
    ensures '/' !in o
    ensures |o| >= 4 && o[|o| - 4..] == ".ply"
  {
    var b := BaseName(filename);
    var root := SplitExt(b).0;
    assert root <= b;
    root + ".ply"
  }

  /** An upload named `dir/stem.ext` (stem not all dots, extension without a
      dot) is written as `stem.ply`. */
  lemma OutputNameOf(dir: string, stem: string, ext: string)
    requires dir == [] || dir[|dir| - 1] == '/'
    requires '/' !in stem && '/' !in ext && '.' !in ext
    requires exists i | 0 <= i < |stem| :: stem[i] != '.'
    ensures OutputName(dir + stem + "." + ext) == stem + ".ply"
  {
    var b := stem + "." + ext;
    assert dir + stem + "." + ext == dir + b;
    BaseNameOf(dir, b);
    SplitExtOf(stem, ext);
  }

  /** A base name without any dot keeps its whole name: `dir/data` is
      written as `data.ply`. */
  lemma OutputNameWithoutDot(dir: string, stem: string)
    requires dir == [] || dir[|dir| - 1] == '/'
    requires '/' !in stem && '.' !in stem
    ensures OutputName(dir + stem) == stem + ".ply"
  {
    BaseNameOf(dir, stem);
    assert LastDot(stem).None?;
    assert SplitExt(stem) == (stem, "");
  }

  /** A base name whose only dot comes first, such as `.csv`, has no
      extension to drop: it is written as `.csv.ply`. */
  lemma OutputNameOfDotName(dir: string, ext: string)
    requires dir == [] || dir[|dir| - 1] == '/'
    requires '/' !in ext && '.' !in ext
    ensures OutputName(dir + "." + ext) == "." + ext + ".ply"
  {
    assert dir + "." + ext == dir + ("." + ext);
    BaseNameOf(dir, "." + ext);
    LastDotOf([], ext);
    assert [] + "." + ext == "." + ext;
    assert SplitExt("." + ext) == ("." + ext, "");
  }

  lemma SplitExtOf(stem: string, ext: string)
    requires '.' !in ext
    requires exists i | 0 <= i < |stem| :: stem[i] != '.'
    ensures SplitExt(stem + "." + ext) == (stem, "." + ext)
  {
    var e := "." + ext;
    var b := stem + e;
    assert stem + "." + ext == b;
    var k := |stem|;
    LastDotOf(stem, ext);
    var i :| 0 <= i < k && stem[i] != '.';
    assert b[i] == stem[i];
    assert b[..k] == stem;
    assert b[k..] == e;
  }

  lemma {:induction false} BaseNameOf(dir: string, b: string)
    requires dir == [] || dir[|dir| - 1] == '/'
    requires '/' !in b
    ensures BaseName(dir + b) == b
  {
    var p := dir + b;
    if b == [] {
      assert p == dir;
    } else {
      var init, last := b[..|b| - 1], b[|b| - 1];
      assert p[..|p| - 1] == dir + init;
      assert p[|p| - 1] == last;
      BaseNameStep(p);
      BaseNameOf(dir, init);
      assert init + [last] == b;
    }
  }

  lemma BaseNameStep(p: string)
    requires p != [] && p[|p| - 1] != '/'
    ensures BaseName(p) == BaseName(p[..|p| - 1]) + [p[|p| - 1]]
  {
  }

  lemma {:induction false} LastDotOf(stem: string, ext: string)
    requires '.' !in ext
    ensures LastDot(stem + "." + ext) == Some(|stem|)
  {
    var s := stem + "." + ext;
    if ext == [] {
      assert s == stem + ".";
    } else {
      var init := ext[..|ext| - 1];
      assert s[..|s| - 1] == stem + "." + init;
      LastDotOf(stem, init);
    }
  }
}
