/**
 * Longest-valid-chain selection: peers are scanned in order, and a fetched chain replaces
 * the current choice only when it is valid and strictly longer than the best length so far
 * (the local chain's length at the start).
 */
module Consensus {
  import opened Wrappers
  import opened Blocks
  import opened Proof

  /** A fetched chain that is valid and strictly longer than `len`. */
  predicate Qualifies(h: Hasher, d: Difficulty, r: Option<seq<Block>>, len: int)
  {
    r.Some? && |r.value| > len && ChainValid(h, r.value, d)
  }

  /** The scan of `ResolveConflicts`, with its running maximum length and current choice. */
  function Scan(h: Hasher, d: Difficulty, peers: seq<string>, fetch: string -> Option<seq<Block>>,
                maxLength: int, best: Option<seq<Block>>): Option<seq<Block>>
  {
    if peers == [] then best
    else if Qualifies(h, d, fetch(peers[0]), maxLength)
    then Scan(h, d, peers[1..], fetch, |fetch(peers[0]).value|, fetch(peers[0]))
    else Scan(h, d, peers[1..], fetch, maxLength, best)
  }

  lemma {:induction false} ScanFacts(h: Hasher, d: Difficulty, peers: seq<string>, fetch: string -> Option<seq<Block>>,
                                     base: int, m: int, best: Option<seq<Block>>)
    requires base <= m
    requires best.None? ==> m == base
    requires best.Some? ==> |best.value| == m && Qualifies(h, d, best, base)
    ensures var r := Scan(h, d, peers, fetch, m, best);
      (r.None? <==> best.None? && forall i :: 0 <= i < |peers| ==> !Qualifies(h, d, fetch(peers[i]), base)) &&
      (r.Some? ==> Qualifies(h, d, r, base) && |r.value| >= m) &&
      (r.Some? ==> forall i :: 0 <= i < |peers| && Qualifies(h, d, fetch(peers[i]), base) ==>
                                 |fetch(peers[i]).value| <= |r.value|) &&
      (r != best ==> r.Some? && |r.value| > m &&
                     exists i :: 0 <= i < |peers| && fetch(peers[i]) == r &&
                                 forall j :: 0 <= j < i && Qualifies(h, d, fetch(peers[j]), base) ==>
                                               |fetch(peers[j]).value| < |r.value|)
  {
    if peers != [] {
      var rest := peers[1..];
      var c0 := fetch(peers[0]);
      assert forall i :: 0 <= i < |rest| ==> rest[i] == peers[i + 1];
      if Qualifies(h, d, c0, m) {
        var m' := |c0.value|;
        ScanFacts(h, d, rest, fetch, base, m', c0);
        var r := Scan(h, d, rest, fetch, m', c0);
        assert r == Scan(h, d, peers, fetch, m, best);
        forall i | 0 <= i < |peers| && Qualifies(h, d, fetch(peers[i]), base)
          ensures |fetch(peers[i]).value| <= |r.value|
        {
          if i > 0 { assert fetch(rest[i - 1]) == fetch(peers[i]); }
        }
        if r != best {
          if r == c0 {
            assert fetch(peers[0]) == r;
          } else {
            var k :| 0 <= k < |rest| && fetch(rest[k]) == r &&
                     forall j :: 0 <= j < k && Qualifies(h, d, fetch(rest[j]), base) ==>
                                   |fetch(rest[j]).value| < |r.value|;
            forall j | 0 <= j < k + 1 && Qualifies(h, d, fetch(peers[j]), base)
              ensures |fetch(peers[j]).value| < |r.value|
            {
              if j > 0 { assert fetch(rest[j - 1]) == fetch(peers[j]); }
            }
            assert fetch(peers[k + 1]) == r;
          }
        }
      } else {
        ScanFacts(h, d, rest, fetch, base, m, best);
        var r := Scan(h, d, rest, fetch, m, best);
        assert r == Scan(h, d, peers, fetch, m, best);
        assert Qualifies(h, d, c0, base) ==> |c0.value| <= m;
        forall i | 0 <= i < |peers| && Qualifies(h, d, fetch(peers[i]), base) && r.Some?
          ensures |fetch(peers[i]).value| <= |r.value|
        {
          if i > 0 { assert fetch(rest[i - 1]) == fetch(peers[i]); }
        }
        if r.None? {
          forall i | 0 <= i < |peers| ensures !Qualifies(h, d, fetch(peers[i]), base) {
            if i > 0 { assert fetch(rest[i - 1]) == fetch(peers[i]); }
          }
        }
        if r != best {
          var k :| 0 <= k < |rest| && fetch(rest[k]) == r &&
                   forall j :: 0 <= j < k && Qualifies(h, d, fetch(rest[j]), base) ==>
                                 |fetch(rest[j]).value| < |r.value|;
          forall j | 0 <= j < k + 1 && Qualifies(h, d, fetch(peers[j]), base)
            ensures |fetch(peers[j]).value| < |r.value|
          {
            if j > 0 { assert fetch(rest[j - 1]) == fetch(peers[j]); }
          }
          assert fetch(peers[k + 1]) == r;
        }
      }
    }
  }

  /**
   * Starting from the local length `base`, the scan picks nothing exactly when no peer's
   * chain is valid and strictly longer; otherwise it picks the chain of some peer `i` that is
   * valid, strictly longer than `base`, at least as long as every qualifying chain, and
   * strictly longer than every qualifying chain of an earlier peer (ties keep the earlier one).
   */
  lemma ScanSelectsFirstLongestValid(h: Hasher, d: Difficulty, peers: seq<string>,
                                     fetch: string -> Option<seq<Block>>, base: int)
    ensures var r := Scan(h, d, peers, fetch, base, None);
      (r.None? <==> forall i :: 0 <= i < |peers| ==> !Qualifies(h, d, fetch(peers[i]), base)) &&
      (r.Some? ==> ChainValid(h, r.value, d) && |r.value| > base &&
                   (forall i :: 0 <= i < |peers| && Qualifies(h, d, fetch(peers[i]), base) ==>
                                  |fetch(peers[i]).value| <= |r.value|) &&
                   exists i :: 0 <= i < |peers| && fetch(peers[i]) == r &&
                               forall j :: 0 <= j < i && Qualifies(h, d, fetch(peers[j]), base) ==>
                                             |fetch(peers[j]).value| < |r.value|)
  {
    ScanFacts(h, d, peers, fetch, base, base, None);
  }
}
