/**
 * File discovery helpers of imgaug.py: the POSIX basename of a path and the
 * hidden-file test built on it.
 */
module Paths {

  /**
   * Where the last component of p[..n] starts: just after the last '/'
   * before position n, or 0 when there is none.
   */
  function ComponentStart(p: string, n: nat): (k: nat)
    requires n <= |p|
    ensures k <= n
  {
    if n == 0 then 0
    else if p[n - 1] == '/' then n
    else ComponentStart(p, n - 1)
  }

  /** No '/' lies between the component start and n, and a '/' stands right before it. */
  lemma {:induction false} ComponentStartFacts(p: string, n: nat)
    requires n <= |p|
    ensures forall j :: ComponentStart(p, n) <= j < n ==> p[j] != '/'
    ensures ComponentStart(p, n) > 0 ==> p[ComponentStart(p, n) - 1] == '/'
  {
    if n > 0 && p[n - 1] != '/' {
      ComponentStartFacts(p, n - 1);
    }
  }

  /**
   * The final component of a POSIX path: everything after the last '/'
   * (the whole path when it holds no '/', the empty string when it ends in '/').
   */
  function Basename(p: string): string
  {
    p[ComponentStart(p, |p|)..]
  }

  /** The three facts that determine the basename uniquely. */
  lemma BasenameSpec(p: string)
    ensures var b := Basename(p);
      && |b| <= |p| && b == p[|p| - |b|..]
      && '/' !in b
      && (|b| < |p| ==> p[|p| - |b| - 1] == '/')
  {
    var k := ComponentStart(p, |p|);
    var b := Basename(p);
    ComponentStartFacts(p, |p|);
    assert |p| - |b| == k;
    forall j | 0 <= j < |b|
      ensures b[j] != '/'
    {
      assert b[j] == p[k + j];
    }
  }

  /** A path names a hidden file when its basename starts with a dot. */
  predicate IsHiddenFile(p: string)
  {
    var b := Basename(p);
    |b| > 0 && b[0] == '.'
  }

  /**
   * The '.' at index i opens the last component of p: it stands at the start
   * of p or right after a '/', and no '/' follows it.
   */
  ghost predicate DotOpensLastComponent(p: string, i: int)
  {
    0 <= i < |p| && p[i] == '.' && (i == 0 || p[i - 1] == '/') &&
    forall j :: i <= j < |p| ==> p[j] != '/'
  }

  /** Reference characterisation of IsHiddenFile that does not mention Basename. */
  lemma IsHiddenFileIff(p: string)
    ensures IsHiddenFile(p) <==> exists i :: DotOpensLastComponent(p, i)
  {
    var k := ComponentStart(p, |p|);
    ComponentStartFacts(p, |p|);
    assert Basename(p) == p[k..];
    if IsHiddenFile(p) {
      assert p[k] == Basename(p)[0];
      assert DotOpensLastComponent(p, k);
    }
    forall i | DotOpensLastComponent(p, i) ensures IsHiddenFile(p) {
      // The last component can start only at k: a '/' just before any other candidate is ruled out.
      assert i == k;
      assert Basename(p)[0] == p[k];
    }
  }

  /** Directory-walk names carry no '/', so for them the test is a plain prefix test. */
  lemma PlainNameHidden(n: string)
    requires '/' !in n
    ensures Basename(n) == n
    ensures IsHiddenFile(n) <==> |n| > 0 && n[0] == '.'
  {
    forall j | 0 <= j < |n|
      ensures n[j] != '/'
    {
      assert n[j] in n;
    }
    ComponentStartFacts(n, |n|);
  }

  /** The prefix the script puts in front of every augmented image and mirrored label. */
  const AugPrefix: string := "aug_"

  function AugName(n: string): (r: string)
    ensures |r| == |n| + 4 && r[..4] == AugPrefix && r[4..] == n
  {
    AugPrefix + n
  }

  /** An augmented output name is never the name it was derived from. */
  lemma AugNameDiffers(n: string)
    ensures AugName(n) != n
  {
    assert |AugName(n)| != |n|;
  }

  /** Distinct names get distinct augmented names. */
  lemma AugNameInjective(m: string, n: string)
    ensures AugName(m) == AugName(n) ==> m == n
  {
    assert AugName(m)[4..] == m && AugName(n)[4..] == n;
  }

  /** An augmented output name of a walk name is never hidden. */
  lemma AugNameNotHidden(n: string)
    requires '/' !in n
    ensures !IsHiddenFile(AugName(n))
  {
    var a := AugName(n);
    assert a[4..] == n;
    forall j | 4 <= j < |a| ensures a[j] != '/' {
      assert a[j] == n[j - 4];
    }
    PlainNameHidden(a);
    assert a[0] == 'a';
  }
}
