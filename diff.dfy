/**
 * The run-length diff decoder `patch` that rebuilds the cities list and the
 * flattened map from the previous full sequence and the server's diff.
 *
 * A diff is a flat integer sequence of phases. A phase is a copy count `c`
 * (append the next `c` elements of the old sequence, taken from the current
 * output length), then a replace count `r`, then `r` literal elements that
 * are appended as they are. Counts that reach past the end of the old
 * sequence or of the diff are cut short, as JavaScript's `slice` does.
 */
module Diff {

  function Min(a: int, b: int): int
  {
    if a <= b then a else b
  }

  /** JavaScript's `s.slice(from, from + len)` for non-negative arguments. */
  function Slice(s: seq<int>, from: nat, len: nat): (r: seq<int>)
    ensures |r| == if from >= |s| then 0 else Min(len, |s| - from)
    ensures forall k :: 0 <= k < |r| ==> r[k] == s[from + k]
  {
    if from >= |s| then [] else s[from..Min(from + len, |s|)]
  }

  /** The diff left to read after a phase whose replace count is `r`. */
  function Rest(d: seq<int>, r: nat): seq<int>
    requires |d| >= 2
  {
    d[Min(2 + r, |d|)..]
  }

  /** Every copy and replace count the decoder reads is non-negative. */
  predicate Counts(d: seq<int>)
    decreases |d|
  {
    d == [] || (d[0] >= 0 && (|d| == 1 || (d[1] >= 0 && Counts(Rest(d, d[1])))))
  }

  /** The copy step of a phase: `c` elements of `old`, continuing at the output's own length. */
  function CopyPhase(prev: seq<int>, out: seq<int>, c: int): (r: seq<int>)
    requires c >= 0
    ensures |r| >= |out| && r[..|out|] == out
    ensures forall k :: |out| <= k < |r| ==> k < |prev| && r[k] == prev[k]
    ensures c == 0 ==> r == out
    ensures |r| == if |out| >= |prev| then |out| else |out| + Min(c, |prev| - |out|)
  {
    if c != 0 then out + Slice(prev, |out|, c) else out
  }

  /** The replace step of a phase: the `r` literals that follow the count `d[1]`. */
  function ReplacePhase(d: seq<int>, out: seq<int>): (r: seq<int>)
    requires |d| >= 2 && d[1] >= 0
    ensures |r| == |out| + Min(d[1], |d| - 2)
    ensures r[..|out|] == out
    ensures forall k :: |out| <= k < |r| ==> r[k] == d[2 + k - |out|]
  {
    if d[1] != 0 then out + Slice(d, 2, d[1]) else out
  }

  /** The value `patch` builds: decode the phases of `d`, appending to `out`. */
  function Decode(prev: seq<int>, d: seq<int>, out: seq<int>): seq<int>
    requires Counts(d)
    decreases |d|
  {
    if d == [] then out
    else
      var out1 := CopyPhase(prev, out, d[0]);
      if |d| == 1 then out1
      else Decode(prev, Rest(d, d[1]), ReplacePhase(d, out1))
  }

  /** Where `patch`'s cursor goes after the phase starting at `i`. */
  function NextCursor(diff: seq<int>, i: nat): (j: nat)
    requires i < |diff| && (i + 1 < |diff| ==> diff[i + 1] >= 0)
    ensures i < j <= |diff|
  {
    if i + 1 < |diff| then Min(i + 2 + diff[i + 1], |diff|) else |diff|
  }

  /** What the phase starting at cursor `i` appends to `out`. */
  function PhaseOut(prev: seq<int>, diff: seq<int>, i: nat, out: seq<int>): seq<int>
    requires i < |diff| && diff[i] >= 0 && (i + 1 < |diff| ==> diff[i + 1] >= 0)
  {
    CopyPhase(prev, out, diff[i]) + (if i + 1 < |diff| && diff[i + 1] != 0 then Slice(diff, i + 2, diff[i + 1]) else [])
  }

  /** One turn of `patch`'s loop, read on the whole diff at cursor `i`. */
  lemma DecodeAt(prev: seq<int>, diff: seq<int>, i: nat, out: seq<int>)
    requires i < |diff| && Counts(diff[i..])
    ensures diff[i] >= 0 && (i + 1 < |diff| ==> diff[i + 1] >= 0)
    ensures Counts(diff[NextCursor(diff, i)..])
    ensures Decode(prev, diff[i..], out) == Decode(prev, diff[NextCursor(diff, i)..], PhaseOut(prev, diff, i, out))
  {
    var d := diff[i..];
    if i + 1 < |diff| {
      assert Rest(d, d[1]) == diff[NextCursor(diff, i)..];
      var out1 := CopyPhase(prev, out, d[0]);
      if d[1] != 0 {
        assert Slice(d, 2, d[1]) == Slice(diff, i + 2, diff[i + 1]);
      }
      assert ReplacePhase(d, out1) == PhaseOut(prev, diff, i, out);
    } else {
      assert diff[NextCursor(diff, i)..] == [];
      assert PhaseOut(prev, diff, i, out) == CopyPhase(prev, out, d[0]);
    }
  }

  /** main.js `patch`: walks the diff with a cursor, appending to the output. */
  method Patch(prev: seq<int>, diff: seq<int>) returns (out: seq<int>)
    requires Counts(diff)
    ensures out == Decode(prev, diff, [])
  {
    out := [];
    var i: nat := 0;
    assert diff[0..] == diff;
    while i < |diff|
      invariant Counts(diff[Min(i, |diff|)..])
      invariant Decode(prev, diff[Min(i, |diff|)..], out) == Decode(prev, diff, [])
      decreases |diff| - i
    {
      DecodeAt(prev, diff, i, out);
      ghost var next, want := NextCursor(diff, i), PhaseOut(prev, diff, i, out);
      ghost var i0, out0 := i, out;
      if diff[i] != 0 {
        out := out + Slice(prev, |out|, diff[i]);
      }
      assert out == CopyPhase(prev, out0, diff[i0]);
      i := i + 1;
      if i < |diff| && diff[i] != 0 {
        out := out + Slice(diff, i + 1, diff[i]);
        i := i + diff[i];
      }
      i := i + 1;
      assert out == want;
      assert Min(i, |diff|) == next;
    }
  }

  /** Decoding only appends: what was built so far is a prefix of the result. */
  lemma {:induction false} DecodeExtends(prev: seq<int>, d: seq<int>, out: seq<int>)
    requires Counts(d)
    ensures |Decode(prev, d, out)| >= |out| && Decode(prev, d, out)[..|out|] == out
    decreases |d|
  {
    if d != [] && |d| > 1 {
      var out1 := CopyPhase(prev, out, d[0]);
      var out2 := ReplacePhase(d, out1);
      DecodeExtends(prev, Rest(d, d[1]), out2);
      assert out2[..|out|] == out;
    }
  }

  /** The "no change" diff `[prev.length]` gives back `old`. */
  lemma NoChange(prev: seq<int>)
    ensures Counts([|prev|]) && Decode(prev, [|prev|], []) == prev
  {
    assert Decode(prev, [|prev|], []) == CopyPhase(prev, [], |prev|);
  }

  /** The empty diff gives the empty sequence, whatever `old` was. */
  lemma EmptyDiff(prev: seq<int>)
    ensures Counts([]) && Decode(prev, [], []) == []
  {
  }

  /** A phase copying nothing and replacing nothing appends nothing. */
  lemma ZeroPhase(prev: seq<int>, d: seq<int>, out: seq<int>)
    requires Counts(d)
    ensures Counts([0, 0] + d) && Decode(prev, [0, 0] + d, out) == Decode(prev, d, out)
  {
    var e := [0, 0] + d;
    assert Rest(e, 0) == d;
  }

  /** How many elements a copy step of count `c` adds to an output `pos` long. */
  function CopyLength(prev: seq<int>, pos: nat, c: nat): nat
  {
    if pos >= |prev| then 0 else Min(c, |prev| - pos)
  }

  /** Output position `k` is filled by a copy phase, the output being `pos` long before `d`. */
  ghost predicate CopiedAt(prev: seq<int>, d: seq<int>, pos: nat, k: nat)
    requires Counts(d)
    decreases |d|
  {
    if d == [] then false
    else
      var n := CopyLength(prev, pos, d[0]);
      (pos <= k < pos + n)
      || (|d| > 1 && CopiedAt(prev, Rest(d, d[1]), pos + n + Min(d[1], |d| - 2), k))
  }

  /** Every copied element lands at its own index: position `k` of the output holds `old[k]`. */
  lemma {:induction false} CopiesInPlace(prev: seq<int>, d: seq<int>, out: seq<int>, k: nat)
    requires Counts(d)
    requires CopiedAt(prev, d, |out|, k)
    ensures k < |Decode(prev, d, out)| && k < |prev| && Decode(prev, d, out)[k] == prev[k]
    decreases |d|
  {
    var out1 := CopyPhase(prev, out, d[0]);
    var n := CopyLength(prev, |out|, d[0]);
    assert |out1| == |out| + n;
    if |out| <= k < |out| + n {
      if |d| > 1 {
        var out2 := ReplacePhase(d, out1);
        DecodeExtends(prev, Rest(d, d[1]), out2);
        assert out2[..|out1|] == out1;
        assert Decode(prev, d, out)[k] == Decode(prev, d, out)[..|out2|][k];
      }
    } else {
      var out2 := ReplacePhase(d, out1);
      CopiesInPlace(prev, Rest(d, d[1]), out2, k);
    }
  }

  /** Sum of all copy and replace counts of a diff. */
  function TotalCount(d: seq<int>): int
    requires Counts(d)
    decreases |d|
  {
    if d == [] then 0
    else if |d| == 1 then d[0]
    else d[0] + d[1] + TotalCount(Rest(d, d[1]))
  }

  /** No count reaches past the end of `old` (copies) or of the diff (literals). */
  predicate InBounds(prevLength: nat, d: seq<int>, pos: nat)
    requires Counts(d)
    decreases |d|
  {
    d == []
    || ((d[0] == 0 || pos + d[0] <= prevLength)
        && (|d| == 1 || (2 + d[1] <= |d| && InBounds(prevLength, Rest(d, d[1]), pos + d[0] + d[1]))))
  }

  /** When every count stays in bounds, the output is exactly as long as all counts together. */
  lemma {:induction false} DecodeLength(prev: seq<int>, d: seq<int>, out: seq<int>)
    requires Counts(d) && InBounds(|prev|, d, |out|)
    ensures |Decode(prev, d, out)| == |out| + TotalCount(d)
    decreases |d|
  {
    if d != [] {
      var out1 := CopyPhase(prev, out, d[0]);
      assert |out1| == |out| + d[0];
      if |d| > 1 {
        DecodeLength(prev, Rest(d, d[1]), ReplacePhase(d, out1));
      }
    }
  }

  /** Overrunning counts are cut short, never padded: the output is at most that long. */
  lemma {:induction false} DecodeLengthBound(prev: seq<int>, d: seq<int>, out: seq<int>)
    requires Counts(d)
    ensures |Decode(prev, d, out)| <= |out| + TotalCount(d)
    decreases |d|
  {
    if d != [] && |d| > 1 {
      DecodeLengthBound(prev, Rest(d, d[1]), ReplacePhase(d, CopyPhase(prev, out, d[0])));
    }
  }

  // An encoder, the partner of `patch`: the server's side of the protocol.

  /** Length of the run of equal elements of `old` and `new` starting at `k`. */
  function MatchRun(prev: seq<int>, next: seq<int>, k: nat): nat
    decreases |next| - k
  {
    if k < |prev| && k < |next| && prev[k] == next[k] then 1 + MatchRun(prev, next, k + 1) else 0
  }

  lemma {:induction false} MatchRunSpec(prev: seq<int>, next: seq<int>, k: nat)
    requires k <= |next|
    ensures k + MatchRun(prev, next, k) <= |next|
    ensures MatchRun(prev, next, k) > 0 ==> k + MatchRun(prev, next, k) <= |prev|
    ensures forall j :: k <= j < k + MatchRun(prev, next, k) ==> j < |prev| && prev[j] == next[j]
    ensures MatchRun(prev, next, k) == 0 <==> !(k < |prev| && k < |next| && prev[k] == next[k])
    decreases |next| - k
  {
    if k < |prev| && k < |next| && prev[k] == next[k] {
      MatchRunSpec(prev, next, k + 1);
    }
  }

  /** Length of the run of elements of `new` from `k` on that differ from `old` (or lie past its end). */
  function DiffRun(prev: seq<int>, next: seq<int>, k: nat): (r: nat)
    requires k <= |next|
    ensures k + r <= |next|
    ensures r == 0 <==> !(k < |next| && !(k < |prev| && prev[k] == next[k]))
    decreases |next| - k
  {
    if k < |next| && !(k < |prev| && prev[k] == next[k]) then 1 + DiffRun(prev, next, k + 1) else 0
  }

  /** Where the encoder's phase starting at `k` ends. */
  function PhaseEnd(prev: seq<int>, next: seq<int>, k: nat): (j: nat)
    requires k < |next|
    ensures k < j <= |next|
  {
    MatchRunSpec(prev, next, k);
    var m := MatchRun(prev, next, k);
    k + m + DiffRun(prev, next, k + m)
  }

  /** The encoder's phase at `k`: copy the run of agreeing elements, then list the differing ones. */
  function Phase(prev: seq<int>, next: seq<int>, k: nat): seq<int>
    requires k < |next|
  {
    MatchRunSpec(prev, next, k);
    var m := MatchRun(prev, next, k);
    var r := DiffRun(prev, next, k + m);
    [m, r] + next[k + m..k + m + r]
  }

  /** A diff that turns `old` into `new`, from position `k` of `new` on. */
  function EncodeFrom(prev: seq<int>, next: seq<int>, k: nat): seq<int>
    requires k <= |next|
    decreases |next| - k
  {
    if k == |next| then [] else Phase(prev, next, k) + EncodeFrom(prev, next, PhaseEnd(prev, next, k))
  }

  function Encode(prev: seq<int>, next: seq<int>): seq<int>
  {
    EncodeFrom(prev, next, 0)
  }

  /** Decoding one phase `[c, r] + literals + tail`. */
  lemma DecodeUnfold(prev: seq<int>, d: seq<int>, out: seq<int>)
    requires |d| >= 2 && Counts(d)
    ensures Counts(Rest(d, d[1]))
    ensures Decode(prev, d, out) == Decode(prev, Rest(d, d[1]), ReplacePhase(d, CopyPhase(prev, out, d[0])))
  {
  }

  /** A phase that copies a run of `m` equal elements and then the `r` elements of `new` after it. */
  lemma PhaseDecodes(prev: seq<int>, next: seq<int>, k: nat, m: nat, r: nat, tail: seq<int>)
    requires k + m + r <= |next|
    requires m > 0 ==> k + m <= |prev|
    requires forall j :: k <= j < k + m ==> j < |prev| && prev[j] == next[j]
    ensures var e := [m, r] + next[k + m..k + m + r] + tail;
      ReplacePhase(e, CopyPhase(prev, next[..k], m)) == next[..k + m + r] && Rest(e, r) == tail
  {
    var e := [m, r] + next[k + m..k + m + r] + tail;
    var out1 := CopyPhase(prev, next[..k], m);
    if m > 0 {
      assert |out1| == k + m;
      assert forall j :: 0 <= j < k + m ==> out1[j] == next[j];
    }
    assert out1 == next[..k + m];
    var out2 := ReplacePhase(e, out1);
    assert |out2| == k + m + r;
    assert forall j :: 0 <= j < k + m + r ==> out2[j] == next[j];
    assert Rest(e, r) == tail;
  }

  /** The diff `e`, decoded against `old` from the first `k` elements of `new` on, rebuilds `new`. */
  ghost predicate Rebuilds(prev: seq<int>, next: seq<int>, k: nat, e: seq<int>)
    requires k <= |next|
  {
    Counts(e) && Decode(prev, e, next[..k]) == next
  }

  /** Round trip: decoding the encoder's diff against `old` rebuilds `new`. */
  lemma {:induction false} EncodeDecode(prev: seq<int>, next: seq<int>, k: nat)
    requires k <= |next|
    ensures Rebuilds(prev, next, k, EncodeFrom(prev, next, k))
    decreases |next| - k
  {
    if k < |next| {
      var m, r := EncodePhase(prev, next, k);
      var tail, e := EncodeFrom(prev, next, k + m + r), EncodeFrom(prev, next, k);
      assert e == [m, r] + next[k + m..k + m + r] + tail;
      assert Rebuilds(prev, next, k + m + r, tail) by { EncodeDecode(prev, next, k + m + r); }
      PhaseChain(prev, next, k, m, r, tail, e);
    } else {
      assert next[..k] == next;
    }
  }

  /** The encoder's phase at `k`: a copy of `m` agreeing elements, then `r` literals of `new`. */
  lemma EncodePhase(prev: seq<int>, next: seq<int>, k: nat) returns (m: nat, r: nat)
    requires k < |next|
    ensures k + m + r == PhaseEnd(prev, next, k)
    ensures m > 0 ==> k + m <= |prev|
    ensures forall j :: k <= j < k + m ==> j < |prev| && prev[j] == next[j]
    ensures m + r > 0 && Phase(prev, next, k) == [m, r] + next[k + m..k + m + r]
  {
    MatchRunSpec(prev, next, k);
    m := MatchRun(prev, next, k);
    r := DiffRun(prev, next, k + m);
  }

  /** If the rest of the encoding rebuilds `new`, so does the phase before it. */
  lemma PhaseChain(prev: seq<int>, next: seq<int>, k: nat, m: nat, r: nat, tail: seq<int>, e: seq<int>)
    requires k + m + r <= |next|
    requires m > 0 ==> k + m <= |prev|
    requires forall j :: k <= j < k + m ==> j < |prev| && prev[j] == next[j]
    requires Rebuilds(prev, next, k + m + r, tail)
    requires e == [m, r] + next[k + m..k + m + r] + tail
    ensures Rebuilds(prev, next, k, e)
  {
    PhaseDecodes(prev, next, k, m, r, tail);
    assert Counts(e);
    DecodeUnfold(prev, e, next[..k]);
  }

  /** `patch(old, encode(old, new)) == new` for all sequences. */
  lemma RoundTrip(prev: seq<int>, next: seq<int>)
    ensures Counts(Encode(prev, next)) && Decode(prev, Encode(prev, next), []) == next
  {
    EncodeDecode(prev, next, 0);
    assert next[..0] == [];
  }
}
