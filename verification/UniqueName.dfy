/** The choice of a file name that no object in the cache has. */
module UniqueName {
  import opened Decimal
  import opened Text
  import opened Wrappers

  const DOT: Unit := 0x2E
  const UNDERSCORE: Unit := 0x5F

  /** Objects without a name match nothing. */
  method CheckFilenameExists(objects: seq<Option<Text>>, filename: Text) returns (taken: bool)
    ensures taken <==> Some(filename) in objects
  {
    for i := 0 to |objects|
      invariant Some(filename) !in objects[..i]
    {
      var fname := objects[i];
      if fname.Some? && fname.value == filename {
        return true;
      }
    }
    assert objects[..|objects|] == objects;
    taken := false;
  }

  /** Where the extension starts. */
  function LastDot(t: Text): (r: nat)
    requires DOT in t
    ensures r < |t| && t[r] == DOT && DOT !in t[r + 1..]
  {
    if t[|t| - 1] == DOT then |t| - 1 else LastDot(t[..|t| - 1])
  }

  function Candidate(filename: Text, suffix: nat): Text
    requires DOT in filename
  {
    var dot := LastDot(filename);
    filename[..dot] + [UNDERSCORE] + Digits(suffix) + filename[dot..]
  }

  ghost predicate Free(objects: seq<Option<Text>>, filename: Text, suffix: nat)
    requires DOT in filename
  {
    Some(Candidate(filename, suffix)) !in objects
  }

  ghost predicate LeastFree(objects: seq<Option<Text>>, filename: Text, suffix: nat)
    requires DOT in filename
  {
    1 <= suffix && Free(objects, filename, suffix) && forall j: nat :: 1 <= j < suffix ==> !Free(objects, filename, j)
  }

  /** Prints a candidate into a buffer that holds it and its terminator. */
  method PrintCandidate(newname: array<Unit>, filename: Text, suffix: nat) returns (name: Text)
    requires DOT in filename && |Candidate(filename, suffix)| < newname.Length
    modifies newname
    ensures name == Candidate(filename, suffix) && name + [0] <= newname[..]
  {
    name := Candidate(filename, suffix);
    Strcpy(newname, 0, name);
    assert newname[0..] == newname[..];
  }

  /** With a cache where one of the suffixes up to 9999 is free, a name that is taken gets the least free suffix. */
  method GenerateUniqueFilename(objects: seq<Option<Text>>, filename: Text) returns (name: Text, ghost suffix: nat)
    requires Some(filename) in objects ==>
      DOT in filename && exists k: nat :: 1 <= k <= 9999 && Free(objects, filename, k)
    ensures Some(name) !in objects
    ensures Some(filename) !in objects ==> name == filename
    ensures Some(filename) in objects ==> LeastFree(objects, filename, suffix) && name == Candidate(filename, suffix)
  {
    var taken := CheckFilenameExists(objects, filename);
    suffix := 0;
    if !taken {
      return filename, 0;
    }
    var dot := LastDot(filename);
    var newname := new Unit[dot + 6 + |filename[dot..]|];
    var n: nat := 1;
    BufferHolds(filename, n);
    name := PrintCandidate(newname, filename, n);
    taken := CheckFilenameExists(objects, name);
    while taken && n < 1000000
      invariant n <= 9999 && name == Candidate(filename, n)
      invariant taken <==> !Free(objects, filename, n)
      invariant forall j: nat :: 1 <= j < n ==> !Free(objects, filename, j)
      decreases 9999 - n
    {
      n := n + 1;
      BufferHolds(filename, n);
      name := PrintCandidate(newname, filename, n);
      taken := CheckFilenameExists(objects, name);
    }
    suffix := n;
  }

  /** The buffer has room for the name, an underscore, four digits and the terminator. */
  ghost predicate FitsBuffer(filename: Text, suffix: nat)
    requires DOT in filename
  {
    |Candidate(filename, suffix)| < LastDot(filename) + 6 + |filename[LastDot(filename)..]|
  }

  /** The buffer is sized for four digits: it holds exactly the suffixes up to 9999. */
  lemma BufferHolds(filename: Text, suffix: nat)
    requires DOT in filename
    ensures FitsBuffer(filename, suffix) <==> suffix <= 9999
  {
    FourDigits(suffix);
  }

  /** Different suffixes give different names, none of them the name itself. */
  lemma CandidatesDiffer(filename: Text, a: nat, b: nat)
    requires DOT in filename
    ensures Candidate(filename, a) != filename
    ensures Candidate(filename, a) == Candidate(filename, b) ==> a == b
  {
    var dot := LastDot(filename);
    var x, y := Candidate(filename, a), Candidate(filename, b);
    if x == y {
      assert x[dot + 1..|x| - |filename[dot..]|] == Digits(a);
      assert y[dot + 1..|y| - |filename[dot..]|] == Digits(b);
      DigitsInjective(a, b);
    }
  }

  lemma {:induction false} LastDotIs(base: Text, extension: Text)
    requires DOT !in extension
    ensures LastDot(base + [DOT] + extension) == |base|
    decreases |extension|
  {
    var t := base + [DOT] + extension;
    if extension != [] {
      assert t[|t| - 1] == extension[|extension| - 1] && extension[|extension| - 1] in extension;
      assert t[..|t| - 1] == base + [DOT] + extension[..|extension| - 1];
      LastDotIs(base, extension[..|extension| - 1]);
    }
  }

  /** What a candidate looks like: the suffix goes between the name and the extension. */
  lemma CandidateSpelled(base: Text, extension: Text, suffix: nat)
    requires 0x2E !in extension
    ensures Candidate(base + [0x2E] + extension, suffix) == base + [0x5F] + PrintInt(suffix) + [0x2E] + extension
  {
    var filename := base + [0x2E] + extension;
    LastDotIs(base, extension);
    assert filename[..|base|] == base && filename[|base|..] == [0x2E] + extension;
  }

  ghost function Candidates(filename: Text, n: nat): (s: set<Option<Text>>)
    requires DOT in filename
    ensures forall x :: x in s <==> exists k: nat :: 1 <= k <= n && x == Some(Candidate(filename, k))
  {
    if n == 0 then {} else Candidates(filename, n - 1) + {Some(Candidate(filename, n))}
  }

  lemma NoCandidates(filename: Text)
    requires DOT in filename
    ensures Candidates(filename, 0) == {}
  {
  }

  lemma {:induction false} CandidatesCount(filename: Text, n: nat)
    requires DOT in filename
    ensures |Candidates(filename, n)| == n && Some(filename) !in Candidates(filename, n)
  {
    hide Candidate, Candidates;
    if n == 0 {
      NoCandidates(filename);
    } else {
      CandidatesCount(filename, n - 1);
      NewCandidate(filename, n);
    }
  }

  lemma NewCandidate(filename: Text, n: nat)
    requires DOT in filename && n > 0
    ensures Some(Candidate(filename, n)) !in Candidates(filename, n - 1) && Candidate(filename, n) != filename
    ensures Candidates(filename, n) == Candidates(filename, n - 1) + {Some(Candidate(filename, n))}
  {
    hide Candidate;
    forall k: nat | 1 <= k < n ensures Candidate(filename, k) != Candidate(filename,
      n) { CandidatesDiffer(filename, k, n); }
    CandidatesDiffer(filename, n, n);
  }

  ghost function Names(objects: seq<Option<Text>>): (s: set<Option<Text>>)
    ensures |s| <= |objects| && forall x :: x in s <==> x in objects
  {
    if objects == [] then {} else Names(objects[1..]) + {objects[0]}
  }

  /** Among as many suffixes as there are objects one is free, since the name itself takes up an object. */
  lemma SomeSuffixFree(objects: seq<Option<Text>>, filename: Text)
    requires DOT in filename && Some(filename) in objects
    ensures exists k: nat :: 1 <= k <= |objects| && Free(objects, filename, k)
  {
    var n := |objects|;
    if forall k: nat :: 1 <= k <= n ==> !Free(objects, filename, k) {
      CandidatesCount(filename, n);
      var all := Candidates(filename, n) + {Some(filename)};
      forall x | x in Candidates(filename, n) ensures x in objects {
        var k: nat :| 1 <= k <= n && x == Some(Candidate(filename, k));
        assert !Free(objects, filename, k);
      }
      Smaller(all, Names(objects));
    }
  }

  lemma {:induction false} Smaller<T>(a: set<T>, b: set<T>)
    requires a <= b
    ensures |a| <= |b|
  {
    if x :| x in a {
      Smaller(a - {x}, b - {x});
    }
  }

  /** So the suffix is at most the number of objects, and up to 9999 objects the buffer never overflows. */
  lemma SuffixBound(objects: seq<Option<Text>>, filename: Text, suffix: nat)
    requires DOT in filename && Some(filename) in objects && LeastFree(objects, filename, suffix)
    ensures suffix <= |objects|
    ensures |objects| <= 9999 ==> exists k: nat :: 1 <= k <= 9999 && Free(objects, filename, k)
  {
    SomeSuffixFree(objects, filename);
  }

  /** The suffixes that the loop comes to print: all smaller ones are taken. */
  ghost predicate Tried(objects: seq<Option<Text>>, filename: Text, suffix: nat)
    requires DOT in filename
  {
    1 <= suffix <= 1000000 && forall j: nat :: 1 <= j < suffix ==> !Free(objects, filename, j)
  }

  /** The buffer is never overrun if and only if one of the suffixes up to 9999 is free. */
  lemma NeverOverrunExactly(objects: seq<Option<Text>>, filename: Text)
    requires DOT in filename
    ensures (forall k: nat :: Tried(objects, filename, k) ==> FitsBuffer(filename, k)) <==>
      exists k: nat :: 1 <= k <= 9999 && Free(objects, filename, k)
  {
    hide Candidate, Free;
    if k: nat :| 1 <= k <= 9999 && Free(objects, filename, k) {
      forall m: nat | Tried(objects, filename, m) ensures FitsBuffer(filename, m) {
        assert m <= k;
        BufferHolds(filename, m);
      }
    } else {
      assert Tried(objects, filename, 10000);
      BufferHolds(filename, 10000);
    }
  }
}
