/**
 * Traces of memory writes. A goroutine that fills its share of a buffer is recorded as the sequence of
 * writes it makes; several of them running at once make some interleaving of their traces.
 */
module Writes {
  datatype Write<T> = Write(at: nat, val: T)

  function Indices<T(==)>(ws: seq<Write<T>>): set<nat> {
    set i | 0 <= i < |ws| :: ws[i].at
  }

  /** Every write stores the value the target holds at that index. */
  ghost predicate Faithful<T>(ws: seq<Write<T>>, target: seq<T>) {
    forall i | 0 <= i < |ws| :: ws[i].at < |target| && ws[i].val == target[ws[i].at]
  }

  /** No index is written twice. */
  ghost predicate Once<T>(ws: seq<Write<T>>) {
    forall i, j | 0 <= i < j < |ws| :: ws[i].at != ws[j].at
  }

  ghost function Apply<T>(mem: seq<T>, ws: seq<Write<T>>): (after: seq<T>)
    ensures |after| == |mem|
  {
    if ws == [] then mem
    else
      var before := Apply(mem, ws[..|ws| - 1]);
      var w := ws[|ws| - 1];
      if w.at < |mem| then before[w.at := w.val] else before
  }

  lemma {:induction false} ApplyAppend<T>(mem: seq<T>, a: seq<Write<T>>, b: seq<Write<T>>)
    ensures Apply(mem, a + b) == Apply(Apply(mem, a), b)
  {
    if b == [] {
      assert a + b == a;
    } else {
      var b' := b[..|b| - 1];
      assert (a + b)[..|a + b| - 1] == a + b';
      ApplyAppend(mem, a, b');
    }
  }

  /** Faithful writes leave the target's value wherever they write and nothing changed elsewhere. */
  lemma {:induction false} ApplyFaithful<T>(mem: seq<T>, ws: seq<Write<T>>, target: seq<T>)
    requires Faithful(ws, target) && |mem| == |target|
    ensures forall k | 0 <= k < |mem| ::
              Apply(mem, ws)[k] == if k in Indices(ws) then target[k] else mem[k]
  {
    if ws != [] {
      var ws' := ws[..|ws| - 1];
      ApplyFaithful(mem, ws', target);
      IndicesAppend(ws', [ws[|ws| - 1]]);
      assert ws == ws' + [ws[|ws| - 1]];
    }
  }

  lemma IndicesAppend<T>(a: seq<Write<T>>, b: seq<Write<T>>)
    ensures Indices(a + b) == Indices(a) + Indices(b)
  {
    forall k | k in Indices(a) + Indices(b)
      ensures k in Indices(a + b)
    {
      if k in Indices(a) {
        var i :| 0 <= i < |a| && a[i].at == k;
        assert (a + b)[i].at == k;
      } else {
        var i :| 0 <= i < |b| && b[i].at == k;
        assert (a + b)[|a| + i].at == k;
      }
    }
  }

  /** `after` is `before` with the trace ws carried out, and ws moves it towards the target, one write an index. */
  ghost predicate Painted<T>(before: seq<T>, after: seq<T>, ws: seq<Write<T>>, target: seq<T>) {
    && |before| == |after| == |target|
    && Faithful(ws, target)
    && Once(ws)
    && after == Apply(before, ws)
  }

  lemma PaintNothing<T>(mem: seq<T>, target: seq<T>)
    requires |mem| == |target|
    ensures Painted(mem, mem, [], target) && Indices<T>([]) == {}
  {
  }

  lemma PaintOne<T>(before: seq<T>, mem: seq<T>, ws: seq<Write<T>>, target: seq<T>, at: nat, val: T)
    requires Painted(before, mem, ws, target)
    requires at < |target| && val == target[at] && at !in Indices(ws)
    ensures Painted(before, mem[at := val], ws + [Write(at, val)], target)
    ensures Indices(ws + [Write(at, val)]) == Indices(ws) + {at}
  {
    var w := [Write(at, val)];
    IndicesAppend(ws, w);
    assert Indices(w) == {w[0].at};
    assert (ws + w)[..|ws|] == ws;
    forall i | 0 <= i < |ws|
      ensures ws[i].at in Indices(ws)
    {
    }
  }

  lemma PaintMore<T>(before: seq<T>, mid: seq<T>, after: seq<T>,
                     a: seq<Write<T>>, b: seq<Write<T>>, target: seq<T>)
    requires Painted(before, mid, a, target) && Painted(mid, after, b, target)
    requires Indices(a) !! Indices(b)
    ensures Painted(before, after, a + b, target)
    ensures Indices(a + b) == Indices(a) + Indices(b)
  {
    IndicesAppend(a, b);
    ApplyAppend(before, a, b);
    forall i | 0 <= i < |a|
      ensures a[i].at in Indices(a)
    {
    }
    forall i | 0 <= i < |b|
      ensures b[i].at in Indices(b)
    {
    }
  }

  /** The store dst[at] = v, added to the trace ws that has led from `before` to here. */
  method Store<T>(dst: array<T>, base: nat, at: nat, v: T,
               ghost before: seq<T>, ghost ws: seq<Write<T>>, ghost target: seq<T>)
    returns (ghost ws': seq<Write<T>>)
    requires base + |target| == dst.Length
    requires Painted(before, dst[base..], ws, target)
    requires at < |target| && v == target[at] && at !in Indices(ws)
    modifies dst
    ensures dst[..base] == old(dst[..base])
    ensures Painted(before, dst[base..], ws', target)
    ensures ws' == ws + [Write(at, v)] && Indices(ws') == Indices(ws) + {at}
  {
    PaintOne(before, dst[base..], ws, target, at, v);
    dst[base + at] := v;
    ws' := ws + [Write(at, v)];
    assert dst[base..] == old(dst[base..])[at := v];
  }

  /** A complete schedule: it names, step by step, the goroutine that writes next, until all have finished. */
  ghost predicate Schedule<T>(traces: seq<seq<Write<T>>>, picks: seq<nat>)
    decreases |picks|
  {
    if picks == [] then
      forall i | 0 <= i < |traces| :: traces[i] == []
    else
      var t := picks[0];
      && t < |traces|
      && traces[t] != []
      && Schedule(traces[t := traces[t][1..]], picks[1..])
  }

  /** The writes in the order a schedule makes them. */
  ghost function Interleaved<T>(traces: seq<seq<Write<T>>>, picks: seq<nat>): seq<Write<T>>
    requires Schedule(traces, picks)
    decreases |picks|
  {
    if picks == [] then []
    else
      var t := picks[0];
      [traces[t][0]] + Interleaved(traces[t := traces[t][1..]], picks[1..])
  }

  ghost predicate Owned<T(!new)>(traces: seq<seq<Write<T>>>, k: nat) {
    exists i :: 0 <= i < |traces| && k in Indices(traces[i])
  }

  /** A schedule makes exactly the writes of its goroutines, whatever their order. */
  lemma {:induction false} InterleavedWrites<T(!new)>(traces: seq<seq<Write<T>>>, picks: seq<nat>, target: seq<T>)
    requires Schedule(traces, picks)
    requires forall i | 0 <= i < |traces| :: Faithful(traces[i], target)
    ensures Faithful(Interleaved(traces, picks), target)
    ensures forall k: nat :: k in Indices(Interleaved(traces, picks)) <==> Owned(traces, k)
    decreases |picks|
  {
    if picks != [] {
      var t := picks[0];
      var head, rest := traces[t][..1], traces[t][1..];
      var traces' := traces[t := rest];
      assert traces[t] == head + rest;
      assert forall i | 0 <= i < |rest| :: rest[i] == traces[t][i + 1];
      InterleavedWrites(traces', picks[1..], target);
      IndicesAppend(head, Interleaved(traces', picks[1..]));
      IndicesAppend(head, rest);
      assert Interleaved(traces, picks) == head + Interleaved(traces', picks[1..]);
      forall k: nat
        ensures Owned(traces, k) <==> k in Indices(head) || Owned(traces', k)
      {
        if Owned(traces, k) {
          var i :| 0 <= i < |traces| && k in Indices(traces[i]);
          assert i != t ==> traces'[i] == traces[i];
          assert i == t ==> k in Indices(head) || k in Indices(traces'[t]);
        }
        if Owned(traces', k) {
          var i :| 0 <= i < |traces'| && k in Indices(traces'[i]);
          assert i != t ==> traces'[i] == traces[i];
          assert k in Indices(traces[i]);
        }
        assert k in Indices(head) ==> k in Indices(traces[t]);
      }
    }
  }

  /** Goroutines that share no index, each true to the target, and ws, all their writes in a row. */
  ghost predicate Joined<T(!new)>(traces: seq<seq<Write<T>>>, ws: seq<Write<T>>, target: seq<T>) {
    && (forall i | 0 <= i < |traces| :: Faithful(traces[i], target) && Once(traces[i]))
    && (forall i, j | 0 <= i < j < |traces| :: Indices(traces[i]) !! Indices(traces[j]))
    && (forall k: nat :: k in Indices(ws) <==> Owned(traces, k))
  }

  lemma JoinMore<T(!new)>(traces: seq<seq<Write<T>>>, ws: seq<Write<T>>, more: seq<Write<T>>, target: seq<T>)
    requires Joined(traces, ws, target)
    requires Faithful(more, target) && Once(more) && Indices(ws) !! Indices(more)
    ensures Joined(traces + [more], ws + more, target)
  {
    IndicesAppend(ws, more);
    var traces' := traces + [more];
    forall i | 0 <= i < |traces|
      ensures Indices(traces[i]) <= Indices(ws)
    {
      forall k | k in Indices(traces[i])
        ensures k in Indices(ws)
      {
        assert Owned(traces, k);
      }
    }
    forall k: nat
      ensures k in Indices(ws + more) <==> Owned(traces', k)
    {
      if Owned(traces, k) {
        var i :| 0 <= i < |traces| && k in Indices(traces[i]);
        assert traces'[i] == traces[i];
      }
      assert traces'[|traces|] == more;
    }
  }

  /**
   * What goroutines filling parts of one buffer promise together: no two touch the same index, none writes an index
   * twice, and what they leave is the target where one of them writes and the old contents elsewhere.
   */
  ghost predicate RaceFree<T(!new)>(before: seq<T>, after: seq<T>, traces: seq<seq<Write<T>>>, target: seq<T>) {
    && |before| == |after| == |target|
    && (forall i | 0 <= i < |traces| :: Faithful(traces[i], target) && Once(traces[i]))
    && (forall i, j | 0 <= i < j < |traces| :: Indices(traces[i]) !! Indices(traces[j]))
    && (forall k: nat | k < |after| :: after[k] == if Owned(traces, k) then target[k] else before[k])
  }

  /** The traces run one after the other are race free. */
  lemma JoinedRaceFree<T(!new)>(before: seq<T>, after: seq<T>, traces: seq<seq<Write<T>>>, ws: seq<Write<T>>,
                                target: seq<T>)
    requires Painted(before, after, ws, target) && Joined(traces, ws, target)
    ensures RaceFree(before, after, traces, target)
  {
    ApplyFaithful(before, ws, target);
  }

  /** Every schedule of race-free goroutines leaves the same buffer. */
  lemma RaceFreeSchedule<T(!new)>(before: seq<T>, after: seq<T>, traces: seq<seq<Write<T>>>, target: seq<T>,
                                  picks: seq<nat>)
    requires RaceFree(before, after, traces, target) && Schedule(traces, picks)
    ensures Apply(before, Interleaved(traces, picks)) == after
  {
    InterleavedWrites(traces, picks, target);
    ApplyFaithful(before, Interleaved(traces, picks), target);
  }
}
