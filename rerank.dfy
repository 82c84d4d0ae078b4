/**
 * Selection of the candidates to recommend from the reranker's reply: the
 * reply is parsed (or replaced by a fallback), its indices cleaned, topped up
 * to a minimum from retrieval order, and truncated to a maximum.
 *
 * Indices are 1-based positions in the candidate list of length `n`.
 */
module Rerank {
  import opened Wrappers
  import opened Seqs

  /** At most this many recommendations. */
  const MaxPicks: nat := 10
  /** At least this many recommendations when there are that many candidates. */
  const MinPicks: nat := 5

  /**
   * The reranker's reply after `json.loads`: a JSON array, or anything else
   * (text that is not JSON, or JSON that is not an array).
   */
  datatype Reply<E> = JsonList(items: seq<E>) | NotAList

  function Min(a: int, b: int): int {
    if a <= b then a else b
  }

  /** `list(range(1, min(6, n + 1)))`: the first five positions, or all of them when fewer. */
  function FallbackIndices(n: nat): (r: seq<int>)
    ensures |r| == Min(MinPicks, n)
    ensures forall i :: 0 <= i < |r| ==> r[i] == i + 1
  {
    seq(Min(MinPicks, n), i requires 0 <= i < Min(MinPicks, n) => i + 1)
  }

  /**
   * Every element of the reply after `int(...)`, or `None` where that raises;
   * `coerce` stands for Python's `int` on a parsed JSON element. The fallback's
   * elements are already ints.
   */
  function Candidates<E>(reply: Reply<E>, coerce: E -> Option<int>, n: nat): (r: seq<Option<int>>)
    ensures reply.JsonList? ==> |r| == |reply.items|
    ensures reply.JsonList? ==> forall i :: 0 <= i < |r| ==> r[i] == coerce(reply.items[i])
    ensures reply.NotAList? ==> |r| == Min(MinPicks, n)
    ensures reply.NotAList? ==> forall i :: 0 <= i < |r| ==> r[i] == Some(i + 1)
  {
    match reply
    case JsonList(items) => seq(|items|, i requires 0 <= i < |items| => coerce(items[i]))
    case NotAList =>
      var fb := FallbackIndices(n);
      seq(|fb|, i requires 0 <= i < |fb| => Some(fb[i]))
  }

  predicate InRange(i: int, n: nat) {
    1 <= i <= n
  }

  /** The coerced indices that name a candidate, in reply order, repeats included. */
  function ValidIndices(cands: seq<Option<int>>, n: nat): (r: seq<int>)
    ensures |r| <= |cands|
    ensures forall i :: 0 <= i < |r| ==> InRange(r[i], n)
  {
    if cands == [] then []
    else
      var init := ValidIndices(cands[..|cands| - 1], n);
      var last := cands[|cands| - 1];
      if last.Some? && InRange(last.value, n) then init + [last.value] else init
  }

  /** An index is valid exactly when some element of the reply coerces to it and it names a candidate. */
  lemma {:induction false} ValidIndicesMembers(cands: seq<Option<int>>, n: nat, x: int)
    ensures x in ValidIndices(cands, n) <==> Some(x) in cands && InRange(x, n)
  {
    if cands != [] {
      var init := cands[..|cands| - 1];
      ValidIndicesMembers(init, n, x);
      assert Some(x) in cands <==> Some(x) in init || cands[|cands| - 1] == Some(x);
    }
  }

  lemma ValidIndicesStep(cands: seq<Option<int>>, n: nat, i: nat)
    requires i < |cands|
    ensures cands[i].Some? && InRange(cands[i].value, n) ==>
              ValidIndices(cands[..i + 1], n) == ValidIndices(cands[..i], n) + [cands[i].value]
    ensures !(cands[i].Some? && InRange(cands[i].value, n)) ==>
              ValidIndices(cands[..i + 1], n) == ValidIndices(cands[..i], n)
  {
    assert cands[..i + 1][..i] == cands[..i];
  }

  /** Later reply elements never change the indices already validated. */
  lemma {:induction false} ValidIndicesPrefix(cands: seq<Option<int>>, n: nat, i: nat)
    requires i <= |cands|
    ensures ValidIndices(cands[..i], n) <= ValidIndices(cands, n)
    decreases |cands| - i
  {
    if i < |cands| {
      ValidIndicesStep(cands, n, i);
      ValidIndicesPrefix(cands, n, i + 1);
    } else {
      assert cands[..i] == cands;
    }
  }

  /** The indices the reranker contributes: valid, first occurrence only, at most ten. */
  function Accepted(cands: seq<Option<int>>, n: nat): (r: seq<int>)
    ensures Distinct(r)
    ensures |r| <= MaxPicks
    ensures forall x :: x in r ==> InRange(x, n)
  {
    var firsts := FirstOccurrences(ValidIndices(cands, n));
    var r := SliceTo(firsts, MaxPicks);
    assert forall x :: x in firsts ==> x in Elems(ValidIndices(cands, n));
    assert forall x :: x in r ==> x in firsts;
    r
  }

  /** When the first `i` elements already yield ten indices, the rest of the reply is ignored. */
  lemma AcceptedStopsAtMax(cands: seq<Option<int>>, n: nat, i: nat)
    requires i <= |cands|
    requires |FirstOccurrences(ValidIndices(cands[..i], n))| >= MaxPicks
    ensures Accepted(cands, n) == SliceTo(FirstOccurrences(ValidIndices(cands[..i], n)), MaxPicks)
  {
    var v, w := ValidIndices(cands[..i], n), ValidIndices(cands, n);
    ValidIndicesPrefix(cands, n, i);
    assert w == v + w[|v|..];
    FirstOccurrencesPrefix(v, w[|v|..]);
  }

  /** When the whole reply yields fewer than ten indices, all of them are accepted. */
  lemma AcceptedAll(cands: seq<Option<int>>, n: nat)
    requires |FirstOccurrences(ValidIndices(cands[..|cands|], n))| < MaxPicks
    ensures Accepted(cands, n) == FirstOccurrences(ValidIndices(cands[..|cands|], n))
  {
    assert cands[..|cands|] == cands;
  }

  /** The index-normalisation loop: keep each valid index not seen before, stop at ten. */
  method NormalizeIndices(cands: seq<Option<int>>, n: nat) returns (clean: seq<int>, seen: set<int>)
    ensures clean == Accepted(cands, n)
    ensures seen == Elems(clean)
  {
    clean, seen := [], {};
    var i := 0;
    while i < |cands|
      invariant i <= |cands|
      invariant clean == FirstOccurrences(ValidIndices(cands[..i], n))
      invariant seen == Elems(clean)
      invariant |clean| < MaxPicks
    {
      var idx := cands[i];
      NormalizeStep(cands, n, i);
      i := i + 1;
      if idx.None? {
        continue;
      }
      var k := idx.value;
      if 1 <= k <= n && k !in seen {
        clean := clean + [k];
        seen := seen + {k};
      }
      if |clean| >= MaxPicks {
        AcceptedStopsAtMax(cands, n, i);
        break;
      }
    }
    if i == |cands| && |clean| < MaxPicks {
      AcceptedAll(cands, n);
    }
  }

  /** One reply element: a valid index not seen before is appended, anything else changes nothing. */
  lemma NormalizeStep(cands: seq<Option<int>>, n: nat, i: nat)
    requires i < |cands|
    ensures var clean := FirstOccurrences(ValidIndices(cands[..i], n));
            var next := FirstOccurrences(ValidIndices(cands[..i + 1], n));
            if cands[i].Some? && InRange(cands[i].value, n) && cands[i].value !in clean
            then next == clean + [cands[i].value] && Elems(next) == Elems(clean) + {cands[i].value}
            else next == clean
  {
    ValidIndicesStep(cands, n, i);
    if cands[i].Some? {
      FirstOccurrencesSnoc(ValidIndices(cands[..i], n), cands[i].value);
    }
  }

  /** The positions 1..m that are not in `taken`, ascending. */
  function MissingUpTo(taken: seq<int>, m: nat): (r: seq<int>)
    ensures |r| <= m
    ensures forall i :: 0 <= i < |r| ==> 1 <= r[i] <= m && r[i] !in taken
  {
    if m == 0 then []
    else
      var below := MissingUpTo(taken, m - 1);
      if m in taken then below else below + [m]
  }

  /** The missing positions are listed in ascending order. */
  lemma {:induction false} MissingUpToAscending(taken: seq<int>, m: nat)
    ensures forall i, j :: 0 <= i < j < |MissingUpTo(taken, m)| ==> MissingUpTo(taken, m)[i] < MissingUpTo(taken, m)[j]
  {
    if m > 0 {
      MissingUpToAscending(taken, m - 1);
    }
  }

  /** Every position up to `m` that is not taken is listed. */
  lemma {:induction false} MissingUpToComplete(taken: seq<int>, m: nat, x: int)
    requires 1 <= x <= m && x !in taken
    ensures x in MissingUpTo(taken, m)
  {
    if x < m {
      MissingUpToComplete(taken, m - 1, x);
    }
  }

  /** One step of the minimum fill: position `i` is appended exactly when it is not yet listed. */
  lemma FillStep(clean: seq<int>, i: nat)
    requires i >= 1
    ensures var before := clean + MissingUpTo(clean, i - 1);
            var after := clean + MissingUpTo(clean, i);
            if i !in Elems(before)
            then after == before + [i] && Elems(after) == Elems(before) + {i}
            else after == before
  {
  }

  /** Looking further only appends larger positions. */
  lemma {:induction false} MissingUpToPrefix(taken: seq<int>, m: nat, m': nat)
    requires m <= m'
    ensures MissingUpTo(taken, m) <= MissingUpTo(taken, m')
    decreases m' - m
  {
    if m < m' {
      MissingUpToPrefix(taken, m, m' - 1);
    }
  }

  /**
   * The selection topped up to five: when fewer than five indices were
   * accepted, the smallest missing positions are appended in ascending order.
   */
  function Filled(acc: seq<int>, n: nat): (r: seq<int>)
    ensures acc <= r
    ensures |acc| >= MinPicks ==> r == acc
  {
    if |acc| < MinPicks then acc + SliceTo(MissingUpTo(acc, n), MinPicks - |acc|) else acc
  }

  /** The minimum-fill loop: walk positions 1..n in order, appending unseen ones until there are five. */
  method FillToMinimum(clean: seq<int>, seen: set<int>, n: nat) returns (filled: seq<int>, seen': set<int>)
    requires seen == Elems(clean)
    ensures filled == Filled(clean, n)
    ensures seen' == Elems(filled)
  {
    filled, seen' := clean, seen;
    if |clean| < MinPicks {
      var i := 1;
      while i <= n
        invariant 1 <= i <= n + 1
        invariant filled == clean + MissingUpTo(clean, i - 1)
        invariant seen' == Elems(filled)
        invariant |filled| < MinPicks
      {
        FillStep(clean, i);
        if i !in seen' {
          filled := filled + [i];
          seen' := seen' + {i};
        }
        if |filled| >= MinPicks {
          FillStopsAtMin(clean, n, i);
          break;
        }
        i := i + 1;
      }
      if i == n + 1 {
        FillExhausted(clean, n);
      }
    }
  }

  /** When all of 1..n adds fewer than five, every missing position is added. */
  lemma FillExhausted(clean: seq<int>, n: nat)
    requires |clean + MissingUpTo(clean, n)| < MinPicks
    ensures Filled(clean, n) == clean + MissingUpTo(clean, n)
  {
  }

  /** Once five positions are reached at `i`, the positions after `i` are not needed. */
  lemma FillStopsAtMin(clean: seq<int>, n: nat, i: nat)
    requires i <= n && |clean| < MinPicks
    requires |clean + MissingUpTo(clean, i)| == MinPicks
    ensures Filled(clean, n) == clean + MissingUpTo(clean, i)
  {
    MissingUpToPrefix(clean, i, n);
  }

  /** The final list of candidate positions: accepted, topped up, truncated to ten. */
  function Selection<E>(reply: Reply<E>, coerce: E -> Option<int>, n: nat): (r: seq<int>)
    ensures |r| <= MaxPicks
    ensures Accepted(Candidates(reply, coerce, n), n) <= r
  {
    SliceTo(Filled(Accepted(Candidates(reply, coerce, n), n), n), MaxPicks)
  }

  /** The top-up keeps the accepted indices distinct, in range and at most ten. */
  lemma FilledWellFormed(acc: seq<int>, n: nat)
    requires Distinct(acc) && |acc| <= MaxPicks
    requires forall x :: x in acc ==> InRange(x, n)
    ensures Distinct(Filled(acc, n))
    ensures forall x :: x in Filled(acc, n) ==> InRange(x, n)
    ensures |Filled(acc, n)| <= MaxPicks
    ensures |Filled(acc, n)| >= Min(MinPicks, n)
  {
    var r := Filled(acc, n);
    if |acc| < MinPicks {
      var miss := MissingUpTo(acc, n);
      MissingUpToAscending(acc, n);
      var extra := SliceTo(miss, MinPicks - |acc|);
      assert extra == miss[..|extra|];
      assert r == acc + extra;
      forall i, j | 0 <= i < j < |r|
        ensures r[i] != r[j]
      {
        if i >= |acc| {
          assert r[i] == miss[i - |acc|] && r[j] == miss[j - |acc|];
        } else if j >= |acc| {
          assert r[j] == miss[j - |acc|] && r[i] in acc;
        }
      }
      if |extra| < MinPicks - |acc| {
        forall x | 1 <= x <= n
          ensures x in r
        {
          if x !in acc {
            MissingUpToComplete(acc, n, x);
          }
        }
        CoversRangeBound(r, n);
      }
      DistinctInRangeBound(r, n);
    } else {
      DistinctInRangeBound(acc, n);
    }
  }

  /**
   * The selection names distinct candidates, never more than ten nor more than
   * there are, and at least five when there are five candidates.
   */
  lemma SelectionWellFormed<E>(reply: Reply<E>, coerce: E -> Option<int>, n: nat)
    ensures var sel := Selection(reply, coerce, n);
            Distinct(sel) &&
            (forall x :: x in sel ==> InRange(x, n)) &&
            Min(MinPicks, n) <= |sel| <= MaxPicks &&
            |sel| <= n
  {
    var acc := Accepted(Candidates(reply, coerce, n), n);
    FilledWellFormed(acc, n);
    var sel := Selection(reply, coerce, n);
    assert sel == Filled(acc, n);
    DistinctInRangeBound(sel, n);
  }

  /** The truncation to ten never removes anything. */
  lemma TruncationKeepsAll<E>(reply: Reply<E>, coerce: E -> Option<int>, n: nat)
    ensures Selection(reply, coerce, n) == Filled(Accepted(Candidates(reply, coerce, n), n), n)
  {
    FilledWellFormed(Accepted(Candidates(reply, coerce, n), n), n);
  }

  /**
   * Every position the top-up skipped is larger than every position it added:
   * the added ones are the smallest unused positions.
   */
  lemma FillTakesSmallest(acc: seq<int>, n: nat, x: int, y: int)
    requires y in Filled(acc, n) && y !in acc
    requires InRange(x, n) && x !in acc && x !in Filled(acc, n)
    ensures y < x
  {
    var miss := MissingUpTo(acc, n);
    MissingUpToAscending(acc, n);
    MissingUpToComplete(acc, n, x);
    var extra := SliceTo(miss, MinPicks - |acc|);
    assert Filled(acc, n) == acc + extra;
    assert extra == miss[..|extra|];
    var j :| 0 <= j < |extra| && extra[j] == y;
    var k :| 0 <= k < |miss| && miss[k] == x;
  }

  /** Nothing is missing when every position is taken. */
  lemma MissingNoneWhenCovered(taken: seq<int>, m: nat)
    requires forall x :: 1 <= x <= m ==> x in taken
    ensures MissingUpTo(taken, m) == []
  {
  }

  /** An unusable reply selects the first five candidates (all of them when fewer), in order. */
  lemma FallbackSelection<E>(coerce: E -> Option<int>, n: nat)
    ensures Selection(NotAList, coerce, n) == FallbackIndices(n)
  {
    var cands := Candidates(NotAList, coerce, n);
    var fb := FallbackIndices(n);
    assert ValidIndices(cands, n) == fb by {
      FallbackValid(cands, n, |cands|);
      assert cands[..|cands|] == cands;
    }
    FirstOccurrencesOfDistinct(fb);
    assert Accepted(cands, n) == fb;
    if |fb| < MinPicks {
      forall x | 1 <= x <= n
        ensures x in fb
      {
        assert fb[x - 1] == x;
      }
      MissingNoneWhenCovered(fb, n);
    }
  }

  lemma {:induction false} FallbackValid(cands: seq<Option<int>>, n: nat, i: nat)
    requires forall j :: 0 <= j < |cands| ==> cands[j] == Some(j + 1)
    requires |cands| <= n
    requires i <= |cands|
    ensures ValidIndices(cands[..i], n) == seq(i, j requires 0 <= j < i => j + 1)
  {
    if i > 0 {
      FallbackValid(cands, n, i - 1);
      ValidIndicesStep(cands, n, i - 1);
    }
  }

  /** A list without repeats is its own first occurrences. */
  lemma {:induction false} FirstOccurrencesOfDistinct(xs: seq<int>)
    requires Distinct(xs)
    ensures FirstOccurrences(xs) == xs
  {
    if xs != [] {
      var init := xs[..|xs| - 1];
      FirstOccurrencesOfDistinct(init);
      assert xs == init + [xs[|xs| - 1]];
    }
  }

  /**
   * Unless the cap of ten was reached, the accepted indices are exactly the
   * positions some reply element coerces to.
   */
  lemma AcceptedMembers(cands: seq<Option<int>>, n: nat, x: int)
    requires |FirstOccurrences(ValidIndices(cands, n))| <= MaxPicks
    ensures x in Accepted(cands, n) <==> Some(x) in cands && InRange(x, n)
  {
    var v := ValidIndices(cands, n);
    ValidIndicesMembers(cands, n, x);
    assert x in v <==> x in Elems(v);
    assert x in FirstOccurrences(v) <==> x in Elems(FirstOccurrences(v));
  }

  // The reply `[3, 3, 99, 1]` for ten candidates: 3 is kept once, 99 is out of
  // range, 1 follows, and 2, 4, 5 top the list up to five.

  lemma ExampleCandidates()
    ensures Candidates(JsonList([3, 3, 99, 1]), (x: int) => Some(x), 10) == [Some(3), Some(3), Some(99), Some(1)]
  {
  }

  lemma ExampleValid()
    ensures ValidIndices([Some(3), Some(3), Some(99), Some(1)], 10) == [3, 3, 1]
  {
    var c := [Some(3), Some(3), Some(99), Some(1)];
    assert c[..0] == [];
    ValidIndicesStep(c, 10, 0);
    ValidIndicesStep(c, 10, 1);
    ValidIndicesStep(c, 10, 2);
    ValidIndicesStep(c, 10, 3);
    assert c[..4] == c;
  }

  /** A repeated first index is kept once. */
  lemma RepeatedHead(a: int, b: int)
    requires a != b
    ensures FirstOccurrences([a, a, b]) == [a, b]
  {
    FirstOccurrencesSnoc([], a);
    assert [] + [a] == [a];
    FirstOccurrencesSnoc([a], a);
    FirstOccurrencesSnoc([a, a], b);
    assert [a, a] + [b] == [a, a, b];
  }

  lemma ExampleAccepted()
    ensures Accepted([Some(3), Some(3), Some(99), Some(1)], 10) == [3, 1]
  {
    ExampleValid();
    RepeatedHead(3, 1);
  }

  lemma ExampleMissing()
    ensures SliceTo(MissingUpTo([3, 1], 10), 3) == [2, 4, 5]
  {
    MissingUpToPrefix([3, 1], 5, 10);
    assert MissingUpTo([3, 1], 5) == [2, 4, 5];
  }

  lemma ExampleSelection()
    ensures Selection(JsonList([3, 3, 99, 1]), (x: int) => Some(x), 10) == [3, 1, 2, 4, 5]
  {
    ExampleCandidates();
    ExampleAccepted();
    ExampleMissing();
    assert Filled([3, 1], 10) == [3, 1, 2, 4, 5];
  }
}
