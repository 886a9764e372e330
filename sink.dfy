/**
 * An io.Writer that may fail, and what the sticky-error writers of config.go
 * (configWriter and configDiffWriter) make of a sequence of lines written
 * through them: the lines before the first failing call are written and
 * counted, the error is remembered, and no call is made after it.
 */
module Sinks {
  import opened GoStrings

  /** An io.Writer. Call number k (counting from 0) fails exactly when k is in failing. */
  class Sink {
    var data: string
    var calls: nat
    const failing: set<nat>

    constructor (failing: set<nat>)
      ensures data == [] && calls == 0 && this.failing == failing
    {
      data := [];
      calls := 0;
      this.failing := failing;
    }

    method Write(p: string) returns (n: nat, failed: bool)
      modifies this
      ensures calls == old(calls) + 1
      ensures failed <==> old(calls) in failing
      ensures failed ==> n == 0 && data == old(data)
      ensures !failed ==> n == |p| && data == old(data) + p
    {
      failed := calls in failing;
      if failed {
        n := 0;
      } else {
        n := |p|;
        data := data + p;
      }
      calls := calls + 1;
    }
  }

  /** The state of a sticky writer (err, n) together with that of its sink (data, calls). */
  datatype WriteState = WriteState(err: bool, n: nat, data: string, calls: nat)

  /**
   * One call of a sticky writer asked to write text: nothing happens once err is
   * set; otherwise the sink is called once, and either the text is appended and
   * counted, or err is set and nothing is written.
   */
  function StickyWrite(text: string, failing: set<nat>, s: WriteState): WriteState {
    if s.err then s
    else if s.calls in failing then s.(err := true, calls := s.calls + 1)
    else s.(n := s.n + |text|, data := s.data + text, calls := s.calls + 1)
  }

  /**
   * How many of count sink calls, numbered from first, succeed before the first
   * one that fails.
   */
  function Delivered(count: nat, first: nat, failing: set<nat>): (j: nat)
    ensures j <= count
    ensures forall k :: first <= k < first + j ==> k !in failing
    ensures j < count ==> first + j in failing
  {
    if count == 0 || first in failing then 0 else 1 + Delivered(count - 1, first + 1, failing)
  }

  /** Delivered is determined by its two ensures clauses. */
  lemma {:induction false} DeliveredUnique(count: nat, first: nat, failing: set<nat>, j: nat)
    requires j <= count
    requires forall k :: first <= k < first + j ==> k !in failing
    requires j < count ==> first + j in failing
    ensures Delivered(count, first, failing) == j
  {
    if j > 0 {
      DeliveredUnique(count - 1, first + 1, failing, j - 1);
    }
  }

  /**
   * The state after the lines were handed, one after the other, to a fresh
   * sticky writer whose sink held data0 after calls0 calls.
   */
  function AfterWriting(lines: seq<string>, failing: set<nat>, data0: string, calls0: nat): WriteState {
    if lines == [] then WriteState(false, 0, data0, calls0)
    else StickyWrite(lines[|lines| - 1], failing, AfterWriting(lines[..|lines| - 1], failing, data0, calls0))
  }

  /** One more line is one more StickyWrite. */
  lemma AfterWritingStep(lines: seq<string>, text: string, failing: set<nat>, data0: string, calls0: nat)
    ensures AfterWriting(lines + [text], failing, data0, calls0)
            == StickyWrite(text, failing, AfterWriting(lines, failing, data0, calls0))
  {
    assert (lines + [text])[..|lines|] == lines;
  }

  /**
   * What a sticky writer has done once the lines were handed to it: the lines
   * before the first failing call are written and counted, err tells whether a
   * call failed, and no call is made after the failing one.
   */
  function ClosedForm(lines: seq<string>, failing: set<nat>, data0: string, calls0: nat): WriteState {
    var j := Delivered(|lines|, calls0, failing);
    WriteState(j < |lines|, |Concat(lines[..j])|, data0 + Concat(lines[..j]),
               calls0 + if j < |lines| then j + 1 else j)
  }

  /** Once a call has failed, a further line changes nothing. */
  lemma ClosedFormAfterError(lines: seq<string>, text: string, failing: set<nat>, data0: string, calls0: nat)
    requires Delivered(|lines|, calls0, failing) < |lines|
    ensures StickyWrite(text, failing, ClosedForm(lines, failing, data0, calls0))
            == ClosedForm(lines + [text], failing, data0, calls0)
  {
    var j := Delivered(|lines|, calls0, failing);
    var all := lines + [text];
    DeliveredUnique(|all|, calls0, failing, j);
    assert all[..j] == lines[..j];
    var c := Concat(lines[..j]);
    assert ClosedForm(lines, failing, data0, calls0) == WriteState(true, |c|, data0 + c, calls0 + j + 1);
    assert ClosedForm(all, failing, data0, calls0) == WriteState(true, |c|, data0 + c, calls0 + j + 1);
  }

  /** The first failing call sets the error and writes nothing. */
  lemma ClosedFormFailingCall(lines: seq<string>, text: string, failing: set<nat>, data0: string, calls0: nat)
    requires Delivered(|lines|, calls0, failing) == |lines| && calls0 + |lines| in failing
    ensures StickyWrite(text, failing, ClosedForm(lines, failing, data0, calls0))
            == ClosedForm(lines + [text], failing, data0, calls0)
  {
    var all := lines + [text];
    DeliveredUnique(|all|, calls0, failing, |lines|);
    assert all[..|lines|] == lines && lines[..|lines|] == lines;
    var c := Concat(lines);
    assert ClosedForm(lines, failing, data0, calls0) == WriteState(false, |c|, data0 + c, calls0 + |lines|);
    assert ClosedForm(all, failing, data0, calls0) == WriteState(true, |c|, data0 + c, calls0 + |lines| + 1);
  }

  /** A call that succeeds writes and counts the line. */
  lemma ClosedFormWritingCall(lines: seq<string>, text: string, failing: set<nat>, data0: string, calls0: nat)
    requires Delivered(|lines|, calls0, failing) == |lines| && calls0 + |lines| !in failing
    ensures StickyWrite(text, failing, ClosedForm(lines, failing, data0, calls0))
            == ClosedForm(lines + [text], failing, data0, calls0)
  {
    var all := lines + [text];
    DeliveredUnique(|all|, calls0, failing, |all|);
    assert lines[..|lines|] == lines && all[..|all|] == all;
    var c := Concat(lines);
    ConcatLast(lines, text);
    assert (data0 + c) + text == data0 + (c + text);
    assert ClosedForm(lines, failing, data0, calls0) == WriteState(false, |c|, data0 + c, calls0 + |lines|);
    assert ClosedForm(all, failing, data0, calls0) == WriteState(false, |c + text|, data0 + (c + text), calls0 + |all|);
  }

  /** AfterWriting in closed form. */
  lemma {:induction false} AfterWritingClosed(lines: seq<string>, failing: set<nat>, data0: string, calls0: nat)
    ensures AfterWriting(lines, failing, data0, calls0) == ClosedForm(lines, failing, data0, calls0)
    decreases |lines|
  {
    if lines != [] {
      var init, text := lines[..|lines| - 1], lines[|lines| - 1];
      assert lines == init + [text];
      AfterWritingClosed(init, failing, data0, calls0);
      var j := Delivered(|init|, calls0, failing);
      if j < |init| {
        ClosedFormAfterError(init, text, failing, data0, calls0);
      } else if calls0 + |init| in failing {
        ClosedFormFailingCall(init, text, failing, data0, calls0);
      } else {
        ClosedFormWritingCall(init, text, failing, data0, calls0);
      }
    }
  }

  /** When no call fails, every line is written and counted, and there is no error. */
  lemma AfterWritingAll(lines: seq<string>, failing: set<nat>, data0: string, calls0: nat)
    requires forall k :: calls0 <= k < calls0 + |lines| ==> k !in failing
    ensures AfterWriting(lines, failing, data0, calls0)
            == WriteState(false, |Concat(lines)|, data0 + Concat(lines), calls0 + |lines|)
  {
    AfterWritingClosed(lines, failing, data0, calls0);
    DeliveredUnique(|lines|, calls0, failing, |lines|);
    assert lines[..|lines|] == lines;
  }

  /** The error is set exactly when one of the calls made failed, and then the last call made failed. */
  lemma AfterWritingError(lines: seq<string>, failing: set<nat>, data0: string, calls0: nat)
    ensures var s := AfterWriting(lines, failing, data0, calls0);
            s.err <==> exists k :: calls0 <= k < calls0 + |lines| && k in failing
    ensures var s := AfterWriting(lines, failing, data0, calls0);
            s.err ==> s.calls > 0 && s.calls - 1 in failing
  {
    AfterWritingClosed(lines, failing, data0, calls0);
    var j := Delivered(|lines|, calls0, failing);
    if j < |lines| {
      assert calls0 + j in failing;
    }
  }

  /** What was written is a prefix of the lines, and n is its length. */
  lemma AfterWritingPrefix(lines: seq<string>, failing: set<nat>, data0: string, calls0: nat)
    ensures var s := AfterWriting(lines, failing, data0, calls0);
            |s.data| == |data0| + s.n && s.data <= data0 + Concat(lines)
  {
    AfterWritingClosed(lines, failing, data0, calls0);
    var j := Delivered(|lines|, calls0, failing);
    var head, tail := Concat(lines[..j]), Concat(lines[j..]);
    ConcatSplit(lines, j);
    assert data0 + Concat(lines) == (data0 + head) + tail;
    assert ((data0 + head) + tail)[..|data0 + head|] == data0 + head;
  }
}
