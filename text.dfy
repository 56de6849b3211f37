/** Substring search and `str.split(sep)[-1]`, as Python's `str` performs them: both
    scan one string from a start index, and `split` resumes after each cut. */
module Text {

  /** `sub` occurs in `s` starting at index `i`. */
  predicate OccursAt(s: string, sub: string, i: nat) {
    i + |sub| <= |s| && forall t :: 0 <= t < |sub| ==> s[i + t] == sub[t]
  }

  /** The leftmost occurrence of `sub` in `s` at or after index `k`, or -1. */
  function FindFrom(s: string, sub: string, k: nat): (r: int)
    requires k <= |s|
    ensures -1 <= r && (r >= 0 ==> k <= r && r + |sub| <= |s|)
    decreases |s| - k
  {
    if k + |sub| > |s| then -1
    else if OccursAt(s, sub, k) then k
    else FindFrom(s, sub, k + 1)
  }

  /** `FindFrom` finds the leftmost occurrence at or after `k`, and -1 means there is
      none from `k` on. */
  lemma {:induction false} FindFromSpec(s: string, sub: string, k: nat)
    requires k <= |s|
    ensures FindFrom(s, sub, k) >= 0 ==> OccursAt(s, sub, FindFrom(s, sub, k))
    ensures forall j: nat :: k <= j && (FindFrom(s, sub, k) < 0 || j < FindFrom(s, sub, k)) ==> !OccursAt(s, sub, j)
    decreases |s| - k
  {
    if k + |sub| <= |s| && !OccursAt(s, sub, k) {
      FindFromSpec(s, sub, k + 1);
    }
  }

  /** `s.find(sub)`: the index of the leftmost occurrence of `sub` in `s`, or -1. */
  function IndexOf(s: string, sub: string): int {
    FindFrom(s, sub, 0)
  }

  /** Python's `sub in s` on two strings. */
  predicate Contains(s: string, sub: string) {
    IndexOf(s, sub) >= 0
  }

  /** `sub in s` holds exactly when `sub` occurs somewhere in `s`, and `IndexOf` is
      the leftmost such place. */
  lemma ContainsIff(s: string, sub: string)
    ensures Contains(s, sub) <==> exists i: nat :: OccursAt(s, sub, i)
    ensures Contains(s, sub) ==>
      OccursAt(s, sub, IndexOf(s, sub)) && forall j: nat :: j < IndexOf(s, sub) ==> !OccursAt(s, sub, j)
  {
    FindFromSpec(s, sub, 0);
    if Contains(s, sub) {
      assert OccursAt(s, sub, IndexOf(s, sub) as nat);
    }
  }

  /** Where the last piece of `s.split(sep)` begins when the scan resumes at `start`:
      `start` itself when no `sep` follows, otherwise the cut after the next
      occurrence, scanned onwards. */
  function LastCut(s: string, sep: string, start: nat): (c: nat)
    requires sep != [] && start <= |s|
    ensures start <= c <= |s|
    decreases |s| - start
  {
    var i := FindFrom(s, sep, start);
    if i < 0 then start else LastCut(s, sep, i + |sep|)
  }

  /** No `sep` starts at or after the last cut;
      it is `start` exactly when no `sep` starts at or after `start`; otherwise an
      occurrence of `sep` that starts at or after `start` ends exactly at it. */
  lemma {:induction false} LastCutSpec(s: string, sep: string, start: nat)
    requires sep != [] && start <= |s|
    ensures forall j: nat :: LastCut(s, sep, start) <= j ==> !OccursAt(s, sep, j)
    ensures LastCut(s, sep, start) == start <==> FindFrom(s, sep, start) < 0
    ensures LastCut(s, sep, start) > start ==>
      start + |sep| <= LastCut(s, sep, start) && OccursAt(s, sep, LastCut(s, sep, start) - |sep|)
    decreases |s| - start
  {
    FindFromSpec(s, sep, start);
    var i := FindFrom(s, sep, start);
    if i < 0 {
      assert LastCut(s, sep, start) == start;
      forall j: nat | start <= j ensures !OccursAt(s, sep, j) {
      }
    } else {
      var c := LastCut(s, sep, i + |sep|);
      assert LastCut(s, sep, start) == c;
      LastCutSpec(s, sep, i + |sep|);
      forall j: nat | c <= j ensures !OccursAt(s, sep, j) {
      }
      assert OccursAt(s, sep, i);
      assert c == i + |sep| || OccursAt(s, sep, c - |sep|);
    }
  }

  /** `s.split(sep)[-1]`: the text after the last cut. */
  function LastPiece(s: string, sep: string): string
    requires sep != []
  {
    s[LastCut(s, sep, 0)..]
  }

  /** An occurrence in `s[k..]` is an occurrence in `s`, shifted by `k`. */
  lemma OccursInSuffix(s: string, k: nat, sub: string, p: nat)
    requires k <= |s|
    requires OccursAt(s[k..], sub, p)
    ensures OccursAt(s, sub, k + p)
  {
    assert s[k..][p..p + |sub|] == s[k + p..k + p + |sub|];
  }

  /** The last piece is the whole of `s` exactly when `s` holds no `sep`. */
  lemma LastPieceWhole(s: string, sep: string)
    requires sep != []
    ensures LastPiece(s, sep) == s <==> !Contains(s, sep)
  {
    LastCutSpec(s, sep, 0);
  }

  /** The last piece holds no `sep`: the new id never contains the separator. */
  lemma LastPieceHasNoSeparator(s: string, sep: string)
    requires sep != []
    ensures !Contains(LastPiece(s, sep), sep)
  {
    var c := LastCut(s, sep, 0);
    LastCutSpec(s, sep, 0);
    ContainsIff(s[c..], sep);
    if Contains(s[c..], sep) {
      OccursInSuffix(s, c, sep, IndexOf(s[c..], sep));
      assert false;
    }
  }

  /** `s` is what precedes an occurrence of `sep`, then `sep`, then what follows it. */
  lemma AroundOccurrence(s: string, sep: string, p: nat)
    requires OccursAt(s, sep, p)
    ensures s == s[..p] + sep + s[p + |sep|..]
  {
    assert s[p..p + |sep|] == sep;
    assert s == s[..p] + s[p..p + |sep|] + s[p + |sep|..];
  }

  /** When `s` holds `sep`, the last piece is preceded by an occurrence of `sep`:
      `s` is some prefix, then `sep`, then the last piece. */
  lemma LastPieceFollowsSeparator(s: string, sep: string)
    requires sep != []
    requires Contains(s, sep)
    ensures |LastPiece(s, sep)| + |sep| <= |s|
    ensures s == s[..|s| - |LastPiece(s, sep)| - |sep|] + sep + LastPiece(s, sep)
  {
    var c := LastCut(s, sep, 0);
    LastCutSpec(s, sep, 0);
    AroundOccurrence(s, sep, c - |sep|);
  }

  /** An occurrence in `s` at or after `k` is an occurrence in `s[k..]`. */
  lemma OccursInSuffixFrom(s: string, k: nat, sub: string, p: nat)
    requires k <= |s|
    requires OccursAt(s, sub, k + p)
    ensures OccursAt(s[k..], sub, p)
  {
    forall t | 0 <= t < |sub| ensures s[k..][p + t] == sub[t] {
      assert s[k + p + t] == sub[t];
    }
  }

  /** When `s` starts with `sep` and no `sep` follows it, the last cut is right after
      that first `sep`. */
  lemma CutAfterLeadingSeparator(s: string, sep: string)
    requires sep != [] && OccursAt(s, sep, 0)
    requires !Contains(s[|sep|..], sep)
    ensures LastCut(s, sep, 0) == |sep|
  {
    assert FindFrom(s, sep, 0) == 0;
    LastCutSpec(s, sep, |sep|);
    var c := LastCut(s, sep, |sep|);
    if c > |sep| {
      // the occurrence of `sep` that ends at the cut lies after the first `sep`
      OccursInSuffixFrom(s, |sep|, sep, c - 2 * |sep|);
      ContainsIff(s[|sep|..], sep);
      assert false;
    }
  }

  /** A link made of `sep` and a text holding no `sep` splits back into that text. */
  lemma LastPieceAfterSeparator(sep: string, id: string)
    requires sep != []
    requires !Contains(id, sep)
    ensures LastPiece(sep + id, sep) == id
  {
    var s := sep + id;
    assert OccursAt(s, sep, 0);
    assert s[|sep|..] == id;
    CutAfterLeadingSeparator(s, sep);
  }
}
