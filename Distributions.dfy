/** The lane distribution converter: the input is indexed lane first
    (`data[lane][step]`), and the output file lists, for each step, the cell
    of every lane in lane order on its own line, followed by a line `-`. The
    file is modelled as its sequence of lines; every line, the last included,
    ends with a newline. */
module Distributions {

  /** Every lane has at least `steps` steps. */
  predicate HasSteps<C>(data: seq<seq<C>>, steps: nat)
  {
    forall lane | 0 <= lane < |data| :: steps <= |data[lane]|
  }

  /** The cells of step `step` in the first `lanes` lanes, rendered by `show`
      (Python's `str`). */
  function Row<C>(data: seq<seq<C>>, show: C -> string, step: nat, lanes: nat): (r: seq<string>)
    requires lanes <= |data|
    requires forall lane | 0 <= lane < lanes :: step < |data[lane]|
    ensures |r| == lanes
    ensures forall lane | 0 <= lane < lanes :: r[lane] == show(data[lane][step])
  {
    if lanes == 0 then [] else Row(data, show, step, lanes - 1) + [show(data[lanes - 1][step])]
  }

  /** The block of one step: one line per lane, then `-`. */
  function Block<C>(data: seq<seq<C>>, show: C -> string, step: nat): seq<string>
    requires HasSteps(data, step + 1)
  {
    Row(data, show, step, |data|) + ["-"]
  }

  /** The blocks of the first `steps` steps. */
  function Blocks<C>(data: seq<seq<C>>, show: C -> string, steps: nat): (r: seq<string>)
    requires HasSteps(data, steps)
    ensures |r| == steps * (|data| + 1)
  {
    if steps == 0 then [] else Blocks(data, show, steps - 1) + Block(data, show, steps - 1)
  }

  /** The first cell the converter cannot read: all lanes reach `step`, the
      lanes before `lane` reach past it, and `lane` stops there. */
  predicate FirstGap<C>(data: seq<seq<C>>, step: nat, lane: nat)
  {
    && lane < |data|
    && HasSteps(data, step)
    && (forall l | 0 <= l < lane :: step < |data[l]|)
    && |data[lane]| <= step
  }

  /** The converter: the number of steps is read from the first lane. An empty
      input or an empty first lane raises before anything is written; a lane
      shorter than the first raises at its first missing cell, after the lines
      before it have been written. */
  method Serialize<C>(data: seq<seq<C>>, show: C -> string) returns (lines: seq<string>, failed: bool)
    ensures data == [] || data[0] == [] ==> failed && lines == []
    ensures failed <==> data == [] || data[0] == [] || !HasSteps(data, |data[0]|)
    ensures !failed ==> HasSteps(data, |data[0]|) && lines == Blocks(data, show, |data[0]|)
    ensures failed && data != [] && data[0] != [] ==>
      exists step, lane | 0 <= step < |data[0]| && FirstGap(data, step, lane) ::
        lines == Blocks(data, show, step) + Row(data, show, step, lane)
  {
    lines := [];
    if data == [] || data[0] == [] {
      return lines, true;
    }
    var nLanes := |data|;
    var nTimesteps := |data[0]|;
    var step := 0;
    while step < nTimesteps
      invariant 0 <= step <= nTimesteps
      invariant HasSteps(data, step)
      invariant lines == Blocks(data, show, step)
    {
      var lane := 0;
      while lane < nLanes
        invariant 0 <= lane <= nLanes
        invariant forall l | 0 <= l < lane :: step < |data[l]|
        invariant lines == Blocks(data, show, step) + Row(data, show, step, lane)
      {
        if |data[lane]| <= step {
          assert FirstGap(data, step, lane);
          return lines, true;
        }
        lines := lines + [show(data[lane][step])];
        lane := lane + 1;
      }
      lines := lines + ["-"];
      step := step + 1;
    }
    return lines, false;
  }

  /** Writing more steps only appends to the file. */
  lemma {:induction false} BlocksPrefix<C>(data: seq<seq<C>>, show: C -> string, shorter: nat, steps: nat)
    requires HasSteps(data, steps) && shorter <= steps
    ensures |Blocks(data, show, shorter)| <= |Blocks(data, show, steps)|
    ensures Blocks(data, show, steps)[..|Blocks(data, show, shorter)|] == Blocks(data, show, shorter)
  {
    if shorter < steps {
      BlocksPrefix(data, show, shorter, steps - 1);
      var before := Blocks(data, show, steps - 1);
      assert Blocks(data, show, steps) == before + Block(data, show, steps - 1);
      assert Blocks(data, show, steps)[..|before|] == before;
    }
  }

  /** The layout of the output: line `step * (lanes + 1) + lane` renders
      `data[lane][step]`, and line `step * (lanes + 1) + lanes` is the `-`
      that closes the step's block. */
  lemma BlocksAt<C>(data: seq<seq<C>>, show: C -> string, steps: nat, step: nat, lane: nat)
    requires HasSteps(data, steps)
    requires step < steps && lane <= |data|
    ensures step * (|data| + 1) + lane < |Blocks(data, show, steps)|
    ensures Blocks(data, show, steps)[step * (|data| + 1) + lane]
         == if lane < |data| then show(data[lane][step]) else "-"
  {
    var before := Blocks(data, show, step);
    var block := Block(data, show, step);
    var upTo := Blocks(data, show, step + 1);
    assert upTo == before + block;
    BlockAt(data, show, step, lane);
    BlocksPrefix(data, show, step + 1, steps);
    var k := step * (|data| + 1) + lane;
    assert |before| == step * (|data| + 1);
    MulSucc(step, |data| + 1);
    assert |upTo| == |before| + |data| + 1;
    assert k == |before| + lane;
    assert upTo[k] == block[lane];
    assert Blocks(data, show, steps)[..|upTo|][k] == upTo[k];
  }

  lemma MulSucc(a: nat, n: nat)
    ensures (a + 1) * n == a * n + n
  {
  }

  lemma BlockAt<C>(data: seq<seq<C>>, show: C -> string, step: nat, lane: nat)
    requires HasSteps(data, step + 1) && lane <= |data|
    ensures |Block(data, show, step)| == |data| + 1
    ensures Block(data, show, step)[lane] == if lane < |data| then show(data[lane][step]) else "-"
  {
  }

  /** Every block ends with a `-` line, the last one included, so the output
      has `steps * (lanes + 1)` lines and its last line is `-`. */
  lemma LastLineIsSeparator<C>(data: seq<seq<C>>, show: C -> string, steps: nat)
    requires HasSteps(data, steps) && steps > 0
    ensures |Blocks(data, show, steps)| == steps * (|data| + 1)
    ensures Blocks(data, show, steps)[|Blocks(data, show, steps)| - 1] == "-"
  {
    BlocksAt(data, show, steps, steps - 1, |data|);
    assert (steps - 1) * (|data| + 1) + |data| == steps * (|data| + 1) - 1;
  }
}
