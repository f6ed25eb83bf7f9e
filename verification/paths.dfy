/** POSIX path handling as the loader uses it (Python 2 `posixpath`):
    `rfind`, `basename`, `splitext`, `join`, and the table name a data file
    gets, which is its base name with the extension removed. */
module Paths {

  const Sep: char := '/'
  const ExtSep: char := '.'

  /** Index of the last `c` in `s`, or -1 when there is none (`str.rfind`). */
  function RFind(s: string, c: char): (r: int)
    ensures -1 <= r < |s|
    decreases |s|
  {
    if |s| == 0 then -1
    else if s[|s| - 1] == c then |s| - 1
    else RFind(s[..|s| - 1], c)
  }

  /** RFind finds a `c`, and there is none after it. */
  lemma {:induction false} RFindSpec(s: string, c: char)
    ensures var r := RFind(s, c);
            && (r >= 0 ==> s[r] == c)
            && (forall k | r < k < |s| :: s[k] != c)
    decreases |s|
  {
    if |s| > 0 && s[|s| - 1] != c {
      RFindSpec(s[..|s| - 1], c);
      assert forall k | 0 <= k < |s| - 1 :: s[k] == s[..|s| - 1][k];
    }
  }

  /** The last `c` of `a + b` is the last one of `b`, if `b` has one. */
  lemma {:induction false} RFindAppend(a: string, b: string, c: char)
    ensures RFind(a + b, c) == if RFind(b, c) >= 0 then |a| + RFind(b, c) else RFind(a, c)
    decreases |b|
  {
    if |b| == 0 {
      assert a + b == a;
    } else if b[|b| - 1] != c {
      assert (a + b)[..|a + b| - 1] == a + b[..|b| - 1];
      RFindAppend(a, b[..|b| - 1], c);
    }
  }

  lemma {:induction false} RFindAbsent(s: string, c: char)
    requires c !in s
    ensures RFind(s, c) == -1
    decreases |s|
  {
    if |s| > 0 {
      assert s[|s| - 1] != c;
      RFindAbsent(s[..|s| - 1], c);
    }
  }

  /** The last path component: everything after the last separator. */
  function Basename(p: string): string
  {
    p[RFind(p, Sep) + 1..]
  }

  /** The base name is the longest suffix free of separators. */
  lemma BasenameSpec(p: string)
    ensures var r := Basename(p);
            && |r| <= |p| && r == p[|p| - |r|..]
            && Sep !in r
            && (|r| < |p| ==> p[|p| - |r| - 1] == Sep)
  {
    RFindSpec(p, Sep);
    var r := Basename(p);
    assert forall k | 0 <= k < |r| :: r[k] == p[RFind(p, Sep) + 1 + k];
  }

  /** Whether `s` consists of extension dots only. */
  predicate AllDots(s: string)
    decreases |s|
  {
    |s| == 0 || (s[0] == ExtSep && AllDots(s[1..]))
  }

  /** AllDots read character by character. */
  lemma {:induction false} AllDotsChars(s: string)
    ensures AllDots(s) <==> forall k | 0 <= k < |s| :: s[k] == ExtSep
    decreases |s|
  {
    if |s| > 0 {
      AllDotsChars(s[1..]);
      assert forall k | 1 <= k < |s| :: s[k] == s[1..][k - 1];
    }
  }

  /** The root that `splitext` returns: the path cut before its last dot when
      that dot lies in the last component and is not one of the component's
      leading dots; otherwise the whole path. */
  function SplitExtRoot(p: string): string
  {
    var sepIndex := RFind(p, Sep);
    var dotIndex := RFind(p, ExtSep);
    if dotIndex > sepIndex && !AllDots(p[sepIndex + 1..dotIndex]) then p[..dotIndex] else p
  }

  /** A prefix of a run of dots is a run of dots. */
  lemma AllDotsPrefix(p: string, i: int, j: nat, k: nat)
    requires 0 <= i <= k <= j <= |p| && AllDots(p[i..j])
    ensures AllDots(p[i..k])
  {
    AllDotsChars(p[i..j]);
    AllDotsChars(p[i..k]);
    assert forall x | 0 <= x < k - i :: p[i..k][x] == p[i..j][x];
  }

  /** When `splitext` cuts, it cuts at the last dot of the path, no separator
      follows that dot, and the last component holds something other than
      dots before it. */
  lemma SplitExtRootCut(p: string)
    requires SplitExtRoot(p) != p
    ensures var root, s := SplitExtRoot(p), RFind(p, Sep);
            && root == p[..|root|] && s < |root| < |p| && p[|root|] == ExtSep
            && (forall k | |root| < k < |p| :: p[k] != ExtSep && p[k] != Sep)
            && !AllDots(p[s + 1..|root|])
  {
    RFindSpec(p, ExtSep);
    RFindSpec(p, Sep);
  }

  /** When `splitext` cuts nothing, every dot of the last component has only
      dots before it in that component. */
  lemma SplitExtRootKept(p: string)
    requires SplitExtRoot(p) == p
    ensures var s := RFind(p, Sep);
            forall k | s < k < |p| && p[k] == ExtSep :: AllDots(p[s + 1..k])
  {
    RFindSpec(p, ExtSep);
    var s, d := RFind(p, Sep), RFind(p, ExtSep);
    if d > s {
      assert |p[..d]| < |p|;
      assert AllDots(p[s + 1..d]);
      forall k | s < k < |p| && p[k] == ExtSep ensures AllDots(p[s + 1..k]) {
        AllDotsPrefix(p, s + 1, d, k);
      }
    }
  }

  /** The root is a prefix of the path. When it is shorter, the cut is at the
      last dot of the path, inside the last component (no separator follows
      it), and something other than dots comes before it in that component.
      When nothing is cut, every dot of the last component has only dots
      before it: the component has no extension. */
  lemma SplitExtRootSpec(p: string)
    ensures var root, s := SplitExtRoot(p), RFind(p, Sep);
            && root <= p
            && (root != p ==>
                  && s < |root| && p[|root|] == ExtSep
                  && (forall k | |root| < k < |p| :: p[k] != ExtSep && p[k] != Sep)
                  && !AllDots(p[s + 1..|root|]))
            && (root == p ==> forall k | s < k < |p| && p[k] == ExtSep :: AllDots(p[s + 1..k]))
  {
    if SplitExtRoot(p) != p {
      SplitExtRootCut(p);
    } else {
      SplitExtRootKept(p);
    }
  }

  /** The name of the table a data file is loaded into. */
  function TableName(path: string): (name: string)
  {
    Basename(SplitExtRoot(path))
  }

  /** `os.path.join(a, b)`: an absolute `b` replaces `a`; otherwise a separator
      is inserted unless `a` is empty or already ends in one. The joined path
      always ends in `b`. A relative `b` is appended to `a`, with a single
      separator between them whenever `a` is not empty, and nothing else is
      added. */
  function PathJoin(a: string, b: string): (p: string)
    ensures |b| <= |p| && p[|p| - |b|..] == b
    ensures |b| > 0 && b[0] == Sep ==> p == b
    ensures (|b| == 0 || b[0] != Sep) ==> a <= p && |p| <= |a| + 1 + |b|
    ensures (|b| == 0 || b[0] != Sep) && |a| > 0 ==> |b| < |p| && p[|p| - |b| - 1] == Sep
    ensures (|b| == 0 || b[0] != Sep) ==>
              |p| == if |a| == 0 || a[|a| - 1] == Sep then |a| + |b| else |a| + 1 + |b|
  {
    if |b| > 0 && b[0] == Sep then b
    else if |a| == 0 || a[|a| - 1] == Sep then a + b
    else a + [Sep] + b
  }

  lemma BasenameOfComponent(d: string, x: string)
    requires Sep !in x
    ensures Basename(x) == x
    ensures Basename(d + [Sep] + x) == x
  {
    RFindAbsent(x, Sep);
    RFindAppend(d + [Sep], x, Sep);
    RFindAppend(d, [Sep], Sep);
    assert (d + [Sep] + x)[|d| + 1..] == x;
  }

  /** Below a separator, `splitext` cuts exactly where it cuts the last component. */
  lemma SplitExtRootUnderDir(d: string, name: string)
    requires Sep !in name
    ensures SplitExtRoot(d + [Sep] + name) == d + [Sep] + SplitExtRoot(name)
  {
    var p := d + [Sep] + name;
    var off := |d| + 1;
    RFindAbsent(name, Sep);
    RFindAppend(d + [Sep], name, Sep);
    RFindAppend(d, [Sep], Sep);
    var sepIndex := RFind(p, Sep);
    assert sepIndex == |d|;
    RFindAppend(d + [Sep], name, ExtSep);
    var dn := RFind(name, ExtSep);
    var dotIndex := RFind(p, ExtSep);
    if dn >= 0 {
      assert dotIndex == off + dn;
      assert p[sepIndex + 1..dotIndex] == name[0..dn];
      assert p[..dotIndex] == d + [Sep] + name[..dn];
    } else {
      RFindAppend(d, [Sep], ExtSep);
      assert RFind([Sep], ExtSep) == -1;
      assert dotIndex < sepIndex;
    }
  }

  /** The directory a file sits in never affects its table name. */
  lemma TableNameUnderDir(d: string, name: string)
    requires Sep !in name
    ensures TableName(d + [Sep] + name) == TableName(name)
  {
    SplitExtRootUnderDir(d, name);
    var root := SplitExtRoot(name);
    assert Sep !in root by {
      forall k | 0 <= k < |root| ensures root[k] != Sep {
        assert root[k] == name[k];
      }
    }
    BasenameOfComponent(d, root);
  }

  /** A file name with a real extension loses exactly that extension. */
  lemma TableNameStripsExtension(stem: string, ext: string)
    requires Sep !in stem && !AllDots(stem)
    requires Sep !in ext && ExtSep !in ext
    ensures TableName(stem + [ExtSep] + ext) == stem
  {
    var p := stem + [ExtSep] + ext;
    RFindAbsent(ext, ExtSep);
    RFindAbsent(ext, Sep);
    RFindAbsent(stem, Sep);
    RFindAppend(stem + [ExtSep], ext, ExtSep);
    RFindAppend(stem, [ExtSep], ExtSep);
    RFindAppend(stem + [ExtSep], ext, Sep);
    RFindAppend(stem, [ExtSep], Sep);
    assert RFind([ExtSep], Sep) == -1;
    assert p[0..|stem|] == stem && p[..|stem|] == stem;
    BasenameOfComponent([], stem);
  }

  /** A name whose only dot is a leading one (a hidden file) keeps it:
      `splitext` finds no extension. */
  lemma TableNameOfHiddenFile(name: string)
    requires Sep !in name && ExtSep !in name
    ensures TableName([ExtSep] + name) == [ExtSep] + name
  {
    var p := [ExtSep] + name;
    RFindAbsent(name, ExtSep);
    RFindAbsent(name, Sep);
    RFindAppend([ExtSep], name, ExtSep);
    RFindAppend([ExtSep], name, Sep);
    assert RFind([ExtSep], Sep) == -1;
    assert AllDots(p[0..0]);
    assert Sep !in p;
    BasenameOfComponent([], p);
  }

  /** A file name with a real extension holds no separator. */
  lemma FileNameHasNoSep(stem: string, ext: string)
    requires Sep !in stem && Sep !in ext
    ensures Sep !in stem + [ExtSep] + ext
  {
    var file := stem + [ExtSep] + ext;
    forall k | 0 <= k < |file| ensures file[k] != Sep {
      if k < |stem| {
        assert file[k] == stem[k];
      } else if k > |stem| {
        assert file[k] == ext[k - |stem| - 1];
      }
    }
  }

  /** Joining a folder and a plain file name gives the file's own table name. */
  lemma TableNameOfJoin(folder: string, file: string)
    requires |file| > 0 && Sep !in file
    ensures TableName(PathJoin(folder, file)) == TableName(file)
  {
    assert file[0] != Sep;
    if |folder| == 0 {
      assert folder + file == file;
      var joined := PathJoin(folder, file);
      assert joined == file;
    } else if folder[|folder| - 1] == Sep {
      var d := folder[..|folder| - 1];
      assert folder == d + [Sep];
      TableNameUnderDir(d, file);
    } else {
      TableNameUnderDir(folder, file);
    }
  }

  /** The loader's case: `join(folder, file)` for a listed file `stem.ext`
      gives a table named `stem`, whatever the folder. */
  lemma TableNameOfListedFile(folder: string, stem: string, ext: string)
    requires Sep !in stem && !AllDots(stem)
    requires Sep !in ext && ExtSep !in ext
    ensures TableName(PathJoin(folder, stem + [ExtSep] + ext)) == stem
  {
    FileNameHasNoSep(stem, ext);
    TableNameStripsExtension(stem, ext);
    TableNameOfJoin(folder, stem + [ExtSep] + ext);
  }

  /** `dir/routes.txt` is loaded as table `routes`. */
  lemma RoutesFileIsRoutesTable()
    ensures TableName("dir/routes.txt") == "routes"
  {
    var stem, ext := "routes", "txt";
    assert !AllDots(stem) by {
      assert stem[0] != ExtSep;
    }
    assert Sep !in stem && Sep !in ext && ExtSep !in ext;
    var file := stem + [ExtSep] + ext;
    assert file == "routes.txt";
    var joined := PathJoin("dir", file);
    assert joined == "dir/routes.txt";
    TableNameOfListedFile("dir", stem, ext);
  }
}
