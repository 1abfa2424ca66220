/** `anaFilter`: the LP analysis filter of iLBC (section 3.3 of RFC 3951), over
    the reals. The state `mem` holds the last ten samples, the oldest first. */
module AnalysisFilter {

  const LPC_FILTERORDER := 10

  // ----- The plain convolution sum -----

  /** The sum of the first j products of coefficients with the samples of the
      history back from sample n. */
  ghost function Taps(a: seq<real>, history: seq<real>, n: nat, j: nat): real
    requires j <= |a| && n < |history| && j <= n + 1
  {
    if j == 0 then 0.0 else Taps(a, history, n, j - 1) + a[j - 1] * history[n - (j - 1)]
  }

  ghost function OutputAt(a: seq<real>, history: seq<real>, n: nat): real
    requires |a| == LPC_FILTERORDER + 1 && LPC_FILTERORDER <= n < |history|
  {
    Taps(a, history, n, LPC_FILTERORDER + 1)
  }

  /** Eleven taps, from the newest sample back. */
  lemma ElevenTaps(a: seq<real>, h: seq<real>, n: nat)
    requires |a| == 11 && 10 <= n < |h|
    ensures OutputAt(a, h, n)
         == a[0] * h[n] + a[1] * h[n - 1] + a[2] * h[n - 2] + a[3] * h[n - 3] + a[4] * h[n - 4]
          + a[5] * h[n - 5] + a[6] * h[n - 6] + a[7] * h[n - 7] + a[8] * h[n - 8] + a[9] * h[n - 9]
          + a[10] * h[n - 10]
  {
    assert Taps(a, h, n, 1) == a[0] * h[n];
    assert Taps(a, h, n, 2) == Taps(a, h, n, 1) + a[1] * h[n - 1];
    assert Taps(a, h, n, 3) == Taps(a, h, n, 2) + a[2] * h[n - 2];
    assert Taps(a, h, n, 4) == Taps(a, h, n, 3) + a[3] * h[n - 3];
    assert Taps(a, h, n, 5) == Taps(a, h, n, 4) + a[4] * h[n - 4];
    assert Taps(a, h, n, 6) == Taps(a, h, n, 5) + a[5] * h[n - 5];
    assert Taps(a, h, n, 7) == Taps(a, h, n, 6) + a[6] * h[n - 6];
    assert Taps(a, h, n, 8) == Taps(a, h, n, 7) + a[7] * h[n - 7];
    assert Taps(a, h, n, 9) == Taps(a, h, n, 8) + a[8] * h[n - 8];
    assert Taps(a, h, n, 10) == Taps(a, h, n, 9) + a[9] * h[n - 9];
    assert Taps(a, h, n, 11) == Taps(a, h, n, 10) + a[10] * h[n - 10];
  }

  /** A signal filtered at once; `mem` is what came before it. */
  ghost function Filtered(a: seq<real>, mem: seq<real>, signal: seq<real>): (out: seq<real>)
    requires |a| == LPC_FILTERORDER + 1 && |mem| == LPC_FILTERORDER
    ensures |out| == |signal|
    ensures forall i | 0 <= i < |signal| :: out[i] == OutputAt(a, mem + signal, LPC_FILTERORDER + i)
  {
    seq(|signal|, i requires 0 <= i < |signal| => OutputAt(a, mem + signal, LPC_FILTERORDER + i))
  }

  /** The response to a unit impulse, from a state of silence, is the
      coefficients one by one and then silence. */
  lemma ImpulseResponse(a: seq<real>, mem: seq<real>, signal: seq<real>, i: nat)
    requires |a| == 11 && |mem| == 10 && i < |signal|
    requires forall k | 0 <= k < 10 :: mem[k] == 0.0
    requires forall k | 0 <= k < |signal| :: signal[k] == if k == 0 then 1.0 else 0.0
    ensures Filtered(a, mem, signal)[i] == if i <= 10 then a[i] else 0.0
  {
    var h := mem + signal;
    OneTap(a, h, 10 + i, 10, 11);
  }

  lemma {:induction false} OneTap(a: seq<real>, h: seq<real>, n: nat, at: nat, j: nat)
    requires j <= |a| && n < |h| && j <= n + 1 && at <= n
    requires forall k | 0 <= k < |h| :: h[k] == if k == at then 1.0 else 0.0
    ensures Taps(a, h, n, j) == if n - at < j then a[n - at] else 0.0
  {
    if j > 0 {
      OneTap(a, h, n, at, j - 1);
    }
  }

  // ----- The filter -----

  /** One of the first samples, for which the state supplies the taps that lie
      before the block. */
  method FilterWithState(In: array<real>, a: array<real>, i: nat, Out: array<real>, mem: array<real>,
                         ghost history: seq<real>)
    requires a.Length == LPC_FILTERORDER + 1 && mem.Length == LPC_FILTERORDER
    requires i < LPC_FILTERORDER <= In.Length == Out.Length && Out != In && Out != a && Out != mem
    requires history == mem[..] + In[..]
    modifies Out
    ensures Out[i] == OutputAt(a[..], history, LPC_FILTERORDER + i)
    ensures forall k | 0 <= k < Out.Length && k != i :: Out[k] == old(Out[k])
  {
    var n := LPC_FILTERORDER + i;
    Out[i] := 0.0;
    for j := 0 to i + 1
      invariant Out[i] == Taps(a[..], history, n, j)
      invariant forall k | 0 <= k < Out.Length && k != i :: Out[k] == old(Out[k])
    {
      assert history[n - j] == In[i - j];
      Out[i] := Out[i] + a[j] * In[i - j];
    }
    var pm := LPC_FILTERORDER - 1;
    for j := i + 1 to LPC_FILTERORDER + 1
      invariant pm == n - j
      invariant Out[i] == Taps(a[..], history, n, j)
      invariant forall k | 0 <= k < Out.Length && k != i :: Out[k] == old(Out[k])
    {
      assert history[n - j] == mem[pm];
      Out[i] := Out[i] + a[j] * mem[pm];
      pm := pm - 1;
    }
  }

  /** One of the other samples. */
  method FilterInside(In: array<real>, a: array<real>, i: nat, Out: array<real>, ghost history: seq<real>)
    requires a.Length == LPC_FILTERORDER + 1
    requires LPC_FILTERORDER <= i < In.Length == Out.Length && Out != In && Out != a
    requires |history| == LPC_FILTERORDER + In.Length && history[LPC_FILTERORDER..] == In[..]
    modifies Out
    ensures Out[i] == OutputAt(a[..], history, LPC_FILTERORDER + i)
    ensures forall k | 0 <= k < Out.Length && k != i :: Out[k] == old(Out[k])
  {
    var n := LPC_FILTERORDER + i;
    Out[i] := 0.0;
    for j := 0 to LPC_FILTERORDER + 1
      invariant Out[i] == Taps(a[..], history, n, j)
      invariant forall k | 0 <= k < Out.Length && k != i :: Out[k] == old(Out[k])
    {
      assert history[n - j] == history[LPC_FILTERORDER..][i - j] == In[i - j];
      Out[i] := Out[i] + a[j] * In[i - j];
    }
  }

  /** `anaFilter`, for a block of at least the filter's order that the output
      does not overlap: the block is filtered as the continuation of what the
      state remembers, and the state remembers its end. */
  method AnaFilter(In: array<real>, a: array<real>, Out: array<real>, mem: array<real>)
    requires a.Length == LPC_FILTERORDER + 1 && mem.Length == LPC_FILTERORDER
    requires LPC_FILTERORDER <= In.Length == Out.Length
    requires Out != In && Out != a && Out != mem && mem != In && mem != a
    modifies Out, mem
    ensures Out[..] == Filtered(a[..], old(mem[..]), In[..])
    ensures mem[..] == In[In.Length - LPC_FILTERORDER..]
  {
    hide OutputAt;
    ghost var history := mem[..] + In[..];
    for i := 0 to LPC_FILTERORDER
      invariant forall k | 0 <= k < i :: Out[k] == OutputAt(a[..], history, LPC_FILTERORDER + k)
      invariant In[..] == old(In[..]) && a[..] == old(a[..]) && mem[..] == old(mem[..])
    {
      FilterWithState(In, a, i, Out, mem, history);
    }
    for i := LPC_FILTERORDER to In.Length
      invariant forall k | 0 <= k < i :: Out[k] == OutputAt(a[..], history, LPC_FILTERORDER + k)
      invariant In[..] == old(In[..]) && a[..] == old(a[..]) && mem[..] == old(mem[..])
    {
      FilterInside(In, a, i, Out, history);
    }
    ghost var out := Out[..];
    for i := 0 to LPC_FILTERORDER
      invariant forall k | 0 <= k < i :: mem[k] == In[In.Length - LPC_FILTERORDER + k]
      invariant Out[..] == out
    {
      mem[i] := In[In.Length - LPC_FILTERORDER + i];
    }
  }

  // ----- Block by block and at once -----

  datatype Block = Block(a: seq<real>, samples: seq<real>)

  ghost predicate ValidBlocks(blocks: seq<Block>) {
    forall k | 0 <= k < |blocks| :: |blocks[k].a| == LPC_FILTERORDER + 1 && LPC_FILTERORDER <= |blocks[k].samples|
  }

  ghost function Signal(blocks: seq<Block>): seq<real> {
    if blocks == [] then [] else blocks[0].samples + Signal(blocks[1..])
  }

  ghost function Last(s: seq<real>): (m: seq<real>)
    requires LPC_FILTERORDER <= |s|
    ensures |m| == LPC_FILTERORDER
  {
    s[|s| - LPC_FILTERORDER..]
  }

  /** The outputs of successive calls, the state carried from one to the next. */
  ghost function RunBlocks(mem: seq<real>, blocks: seq<Block>): (out: seq<real>)
    requires ValidBlocks(blocks) && |mem| == LPC_FILTERORDER
    decreases |blocks|
    ensures |out| == |Signal(blocks)|
  {
    if blocks == [] then []
    else Filtered(blocks[0].a, mem, blocks[0].samples) + RunBlocks(Last(blocks[0].samples), blocks[1..])
  }

  ghost function StateAfter(mem: seq<real>, blocks: seq<Block>): (m: seq<real>)
    requires ValidBlocks(blocks) && |mem| == LPC_FILTERORDER
    decreases |blocks|
    ensures |m| == LPC_FILTERORDER
  {
    if blocks == [] then mem else StateAfter(Last(blocks[0].samples), blocks[1..])
  }

  /** The coefficients in force for sample i of the whole signal. */
  ghost function CoefficientsAt(blocks: seq<Block>, i: nat): (a: seq<real>)
    requires ValidBlocks(blocks) && i < |Signal(blocks)|
    ensures |a| == LPC_FILTERORDER + 1
  {
    if i < |blocks[0].samples| then blocks[0].a else CoefficientsAt(blocks[1..], i - |blocks[0].samples|)
  }

  /** A sum looks back no further than its taps reach, and not ahead. */
  lemma {:induction false} TapsAreLocal(a: seq<real>, history: seq<real>, n: nat, j: nat,
                                      before: seq<real>, after: seq<real>)
    requires j <= |a| && n < |history| && j <= n + 1
    ensures Taps(a, before + history + after, |before| + n, j) == Taps(a, history, n, j)
  {
    if j > 0 {
      TapsAreLocal(a, history, n, j - 1, before, after);
    }
  }

  ghost predicate BlockwiseIsAtOnce(mem: seq<real>, blocks: seq<Block>)
    requires ValidBlocks(blocks) && |mem| == LPC_FILTERORDER
  {
    forall i | 0 <= i < |Signal(blocks)| ::
      RunBlocks(mem, blocks)[i] == OutputAt(CoefficientsAt(blocks, i), mem + Signal(blocks), LPC_FILTERORDER + i)
  }

  /** Filtering block by block gives what filtering the whole signal at once
      gives, each sample by the coefficients of its block, and ends in the same
      state. */
  lemma {:induction false} BlocksAreOneSignal(mem: seq<real>, blocks: seq<Block>)
    requires ValidBlocks(blocks) && |mem| == LPC_FILTERORDER
    ensures StateAfter(mem, blocks) == Last(mem + Signal(blocks))
    ensures BlockwiseIsAtOnce(mem, blocks)
    decreases |blocks|
  {
    if blocks != [] {
      var b, rest := blocks[0].samples, blocks[1..];
      BlocksAreOneSignal(Last(b), rest);
      assert Last(mem + Signal(blocks)) == Last(Last(b) + Signal(rest));
      forall i | 0 <= i < |Signal(blocks)|
        ensures RunBlocks(mem, blocks)[i]
           == OutputAt(CoefficientsAt(blocks, i), mem + Signal(blocks), LPC_FILTERORDER + i)
      {
        OneSample(mem, blocks, i);
      }
    }
  }

  lemma OneSample(mem: seq<real>, blocks: seq<Block>, i: nat)
    requires ValidBlocks(blocks) && |mem| == LPC_FILTERORDER && i < |Signal(blocks)|
    requires BlockwiseIsAtOnce(Last(blocks[0].samples), blocks[1..])
    ensures RunBlocks(mem, blocks)[i] == OutputAt(CoefficientsAt(blocks, i), mem + Signal(blocks), LPC_FILTERORDER + i)
  {
    hide Taps;
    var b, rest := blocks[0].samples, blocks[1..];
    var a := CoefficientsAt(blocks, i);
    if i < |b| {
      TapsAreLocal(a, mem + b, LPC_FILTERORDER + i, LPC_FILTERORDER + 1, [], Signal(rest));
      assert [] + (mem + b) + Signal(rest) == mem + Signal(blocks);
    } else {
      var before := mem + b[..|b| - LPC_FILTERORDER];
      TapsAreLocal(a, Last(b) + Signal(rest), LPC_FILTERORDER + i - |b|, LPC_FILTERORDER + 1, before, []);
      assert before + (Last(b) + Signal(rest)) + [] == mem + Signal(blocks);
      assert RunBlocks(mem, blocks)[i] == RunBlocks(Last(b), rest)[i - |b|];
    }
  }

  /** With the same coefficients throughout, calls block by block are one call. */
  lemma {:induction false} SameCoefficients(a: seq<real>, mem: seq<real>, blocks: seq<Block>)
    requires ValidBlocks(blocks) && |mem| == LPC_FILTERORDER && |a| == LPC_FILTERORDER + 1
    requires forall k | 0 <= k < |blocks| :: blocks[k].a == a
    ensures RunBlocks(mem, blocks) == Filtered(a, mem, Signal(blocks))
  {
    BlocksAreOneSignal(mem, blocks);
    forall i | 0 <= i < |Signal(blocks)|
      ensures CoefficientsAt(blocks, i) == a
    {
      OneSetOfCoefficients(a, blocks, i);
    }
  }

  lemma {:induction false} OneSetOfCoefficients(a: seq<real>, blocks: seq<Block>, i: nat)
    requires ValidBlocks(blocks) && i < |Signal(blocks)|
    requires forall k | 0 <= k < |blocks| :: blocks[k].a == a
    ensures CoefficientsAt(blocks, i) == a
  {
    if i >= |blocks[0].samples| {
      OneSetOfCoefficients(a, blocks[1..], i - |blocks[0].samples|);
    }
  }
}
