/**
 The ring buffer between the reading and the writing process of cdda2wav
 (cdda2wav/ringbuff.c), with counting semaphores. As in the FIFO, a run is any sequence of
 choices, and a step is one semaphore operation, one shared store, or one assert. A failing assert
 and a NULL pointer lead to the aborted states.
 */
module RingBuffer {
  import opened Bytes
  import opened Cyclic

  /** get_next_buffer, the reading itself, and define_buffer. */
  datatype ReaderPc = RequestFree | KeepPrevious | Occupy | Filling | AssertRoom | SetLast | CountRead | ReleaseDef
                    | ReaderAborted

  /** get_oldest_buffer, the writing itself, and drop_buffer. */
  datatype WriterPc = RequestDef | GetOldest | Draining | AssertData | DropLast | CountWritten | ReleaseFree
                    | WriterAborted

  /**
   `fill`, `last`, `prev` are *he_fill_buffer, *last_buffer and previous_read_buffer;
   `read` and `written` the two segment counters; `free` and `def` the semaphores. The
   history: contents of all filled and all drained segments, and the slot `tail` in which
   segment number |dropped| lies.
   */
  datatype State = State(
    slots: seq<seq<Byte>>, fill: Option<nat>, last: Option<nat>, prev: Option<nat>,
    read: int, written: int, free: int, def: int,
    reader: ReaderPc, writer: WriterPc,
    filled: seq<seq<Byte>>, drained: seq<seq<Byte>>, dropped: nat, tail: nat)

  /** Who moves; while filling or draining, the new content and whether to go on. */
  datatype Choice = Reader(data: seq<Byte>, more: bool) | Writer(data: seq<Byte>, more: bool)

  ghost predicate WellFormed(n: nat, s: State) {
    && n >= 1 && |s.slots| == n && s.tail < n
    && (s.fill.Some? ==> s.fill.value < n) && (s.last.Some? ==> s.last.value < n)
    && (s.prev.Some? ==> s.prev.value < n)
  }

  /** After set_total_buffers. */
  predicate Init(n: nat, s: State) {
    && n >= 1 && |s.slots| == n
    && s.fill == s.last == s.prev == None
    && s.read == s.written == 0 && s.free == n && s.def == 0
    && s.reader == RequestFree && s.writer == RequestDef
    && s.filled == s.drained == [] && s.dropped == 0 && s.tail == 0
  }

  function ReaderStep(n: nat, s: State, ch: Choice): State
    requires WellFormed(n, s)
  {
    match s.reader
    case RequestFree => if s.free > 0 then s.(free := s.free - 1, reader := KeepPrevious) else s
    case KeepPrevious =>
      if s.read - s.written <= n then s.(prev := s.fill, reader := Occupy) else s.(reader := ReaderAborted)
    case Occupy =>
      s.(fill := Some(if s.fill.None? then 0 else Inc(s.fill.value, n)), reader := Filling)
    case Filling =>
      if s.fill.None? then s.(reader := ReaderAborted)
      else s.(slots := s.slots[s.fill.value := ch.data], reader := if ch.more then Filling else AssertRoom)
    case AssertRoom => s.(reader := if s.read - s.written < n then SetLast else ReaderAborted)
    case SetLast => s.(last := if s.last.None? then s.fill else s.last, reader := CountRead)
    case CountRead =>
      if s.fill.None? then s.(reader := ReaderAborted)
      else s.(read := s.read + 1, reader := ReleaseDef, filled := s.filled + [s.slots[s.fill.value]])
    case ReleaseDef => s.(def := s.def + 1, reader := RequestFree)
    case ReaderAborted => s
  }

  function WriterStep(n: nat, s: State, ch: Choice): State
    requires WellFormed(n, s)
  {
    match s.writer
    case RequestDef => if s.def > 0 then s.(def := s.def - 1, writer := GetOldest) else s
    case GetOldest =>
      if s.last.None? then s.(writer := WriterAborted)
      else s.(drained := s.drained + [s.slots[s.last.value]], writer := Draining)
    case Draining =>
      // the samples are converted in place
      if s.last.None? then s.(writer := WriterAborted)
      else s.(slots := s.slots[s.last.value := ch.data], writer := if ch.more then Draining else AssertData)
    case AssertData =>
      s.(writer := if n - (s.read - s.written) < n && s.read - s.written > 0 then DropLast else WriterAborted)
    case DropLast =>
      s.(last := if s.last.None? then s.fill else Some(Inc(s.last.value, n)), writer := CountWritten,
         dropped := s.dropped + 1, tail := Inc(s.tail, n))
    case CountWritten => s.(written := s.written + 1, writer := ReleaseFree)
    case ReleaseFree => s.(free := s.free + 1, writer := RequestDef)
    case WriterAborted => s
  }

  // ------------------------------------------------------------------ the invariant

  function Num(b: bool): nat { if b then 1 else 0 }

  /** The reader holds a slot that it has not yet counted. */
  predicate Holding(r: ReaderPc) { r.Filling? || r.AssertRoom? || r.SetLast? || r.CountRead? }

  /** The writer is between taking the oldest segment and dropping it. */
  predicate Busy(w: WriterPc) { w.GetOldest? || Handling(w) }

  predicate Handling(w: WriterPc) { w.Draining? || w.AssertData? || w.DropLast? }

  /** Slots occupied so far by get_next_buffer. */
  function Occupied(s: State): nat { |s.filled| + Num(Holding(s.reader)) }

  /** The semaphores and the counters follow from how far the two processes are. */
  ghost predicate Tallied(n: nat, s: State) {
    && s.free == n + s.dropped - Num(s.writer.CountWritten? || s.writer.ReleaseFree?)
                 - |s.filled| - Num(Holding(s.reader) || s.reader.KeepPrevious? || s.reader.Occupy?)
    && s.def == |s.filled| - Num(s.reader.ReleaseDef?) - s.dropped - Num(Busy(s.writer))
    && s.free >= 0 && s.def >= 0
    && s.read == |s.filled|
    && s.written == s.dropped - Num(s.writer.CountWritten?)
  }

  /** Where the three pointers point. */
  ghost predicate Pointing(n: nat, s: State) {
    && s.tail < n && s.dropped <= Occupied(s) <= s.dropped + n
    && (if Occupied(s) == 0 then s.fill == None && s.tail == 0
        else s.fill.Some? && s.fill.value < n && Inc(s.fill.value, n) == Idx(s.tail, Occupied(s) - s.dropped, n))
    && (|s.filled| > 0 || s.reader == CountRead ==> s.last == Some(s.tail))
    && (s.last.Some? ==> s.last == Some(s.tail))
    && (Holding(s.reader) ==>
          if |s.filled| == 0 then s.prev == None else s.prev.Some? && Some(Inc(s.prev.value, n)) == s.fill)
    && (s.reader == Occupy ==> s.prev == s.fill)
  }

  /** From segment number `dropped + from` on, the filled segments lie in the slots from `tail` on. */
  ghost predicate Lies(slots: seq<seq<Byte>>, tail: nat, dropped: nat, filled: seq<seq<Byte>>, from: nat) {
    && tail < |slots| && |filled| <= dropped + |slots|
    && forall j | from <= j < |filled| - dropped :: slots[Idx(tail, j, |slots|)] == filled[dropped + j]
  }

  /** The window of stored segments, and what has been taken out of it. */
  ghost predicate Stored(s: State) {
    && Lies(s.slots, s.tail, s.dropped, s.filled, Num(Handling(s.writer)))
    && s.dropped + Num(Handling(s.writer)) <= |s.filled|
    && s.drained == s.filled[..s.dropped + Num(Handling(s.writer))]
  }

  ghost predicate Inv(n: nat, s: State) {
    && WellFormed(n, s) && Tallied(n, s) && Pointing(n, s) && Stored(s)
    && s.reader != ReaderAborted && s.writer != WriterAborted
  }

  lemma ReaderKeepsTallied(n: nat, s: State, ch: Choice)
    requires WellFormed(n, s) && Tallied(n, s) && Pointing(n, s) && s.reader != ReaderAborted
    ensures var s' := ReaderStep(n, s, ch);
      WellFormed(n, s') && Tallied(n, s') && s'.reader != ReaderAborted
  {
  }

  lemma ReaderKeepsPointing(n: nat, s: State, ch: Choice)
    requires WellFormed(n, s) && Tallied(n, s) && Pointing(n, s)
    ensures Pointing(n, ReaderStep(n, s, ch))
  {
  }

  lemma WriterKeepsTallied(n: nat, s: State, ch: Choice)
    requires WellFormed(n, s) && Tallied(n, s) && Pointing(n, s) && s.writer != WriterAborted
    ensures var s' := WriterStep(n, s, ch);
      WellFormed(n, s') && Tallied(n, s') && s'.writer != WriterAborted
  {
  }

  /** drop_buffer moves *last_buffer on, together with the window. */
  lemma DropKeepsPointing(n: nat, s: State, s': State)
    requires WellFormed(n, s) && Tallied(n, s) && Pointing(n, s) && s.writer.DropLast? && s'.reader == s.reader
    requires s'.fill == s.fill && s'.prev == s.prev && s'.filled == s.filled
    requires s'.dropped == s.dropped + 1 && s'.tail == Inc(s.tail, n)
    requires s'.last == if s.last.None? then s.fill else Some(Inc(s.last.value, n))
    ensures Pointing(n, s')
  {
  }

  lemma WriterKeepsPointing(n: nat, s: State, ch: Choice)
    requires WellFormed(n, s) && Tallied(n, s) && Pointing(n, s)
    ensures Pointing(n, WriterStep(n, s, ch))
  {
    if s.writer.DropLast? {
      DropKeepsPointing(n, s, WriterStep(n, s, ch));
    }
  }

  /** Writing the slot after the window, and then widening the window by it. */
  lemma FillFrame(slots: seq<seq<Byte>>, tail: nat, dropped: nat, filled: seq<seq<Byte>>, from: nat,
                  at: nat, data: seq<Byte>)
    requires Lies(slots, tail, dropped, filled, from)
    requires dropped <= |filled| < dropped + |slots| && at == Idx(tail, |filled| - dropped, |slots|)
    ensures Lies(slots[at := data], tail, dropped, filled, from)
    ensures Lies(slots, tail, dropped, filled + [slots[at]], from)
  {
  }

  /** Writing the oldest slot once it is no longer part of the window. */
  lemma DrainFrame(slots: seq<seq<Byte>>, tail: nat, dropped: nat, filled: seq<seq<Byte>>, data: seq<Byte>)
    requires Lies(slots, tail, dropped, filled, 1)
    ensures Lies(slots[tail := data], tail, dropped, filled, 1)
  {
  }

  /** Dropping the oldest slot. */
  lemma DropFrame(slots: seq<seq<Byte>>, tail: nat, dropped: nat, filled: seq<seq<Byte>>)
    requires Lies(slots, tail, dropped, filled, 1) && dropped < |filled|
    ensures Lies(slots, Inc(tail, |slots|), dropped + 1, filled, 0)
  {
    forall j | 0 <= j < |filled| - (dropped + 1)
      ensures slots[Idx(Inc(tail, |slots|), j, |slots|)] == filled[dropped + 1 + j]
    {
      assert Idx(Inc(tail, |slots|), j, |slots|) == Idx(tail, j + 1, |slots|);
    }
  }

  lemma FillKeepsStored(n: nat, s: State, ch: Choice)
    requires WellFormed(n, s) && Pointing(n, s) && Stored(s) && s.reader.Filling?
    ensures Stored(ReaderStep(n, s, ch))
  {
    FillFrame(s.slots, s.tail, s.dropped, s.filled, Num(Handling(s.writer)), s.fill.value, ch.data);
  }

  lemma CountKeepsStored(n: nat, s: State, ch: Choice)
    requires WellFormed(n, s) && Pointing(n, s) && Stored(s) && s.reader.CountRead?
    ensures Stored(ReaderStep(n, s, ch))
  {
    FillFrame(s.slots, s.tail, s.dropped, s.filled, Num(Handling(s.writer)), s.fill.value, []);
  }

  lemma ReaderKeepsStored(n: nat, s: State, ch: Choice)
    requires WellFormed(n, s) && Pointing(n, s) && Stored(s)
    ensures Stored(ReaderStep(n, s, ch))
  {
    if s.reader.Filling? {
      FillKeepsStored(n, s, ch);
    } else if s.reader.CountRead? {
      CountKeepsStored(n, s, ch);
    }
  }

  /** The oldest segment is taken. */
  lemma GetKeepsStored(n: nat, s: State, ch: Choice)
    requires WellFormed(n, s) && Tallied(n, s) && Pointing(n, s) && Stored(s) && s.writer.GetOldest?
    ensures Stored(WriterStep(n, s, ch))
  {
    assert s.slots[Idx(s.tail, 0, n)] == s.filled[s.dropped];
    assert s.filled[..s.dropped + 1] == s.filled[..s.dropped] + [s.filled[s.dropped]];
  }

  lemma WriterKeepsStored(n: nat, s: State, ch: Choice)
    requires WellFormed(n, s) && Tallied(n, s) && Pointing(n, s) && Stored(s)
    ensures Stored(WriterStep(n, s, ch))
  {
    if s.writer.GetOldest? {
      GetKeepsStored(n, s, ch);
    } else if s.writer.Draining? {
      DrainFrame(s.slots, s.tail, s.dropped, s.filled, ch.data);
    } else if s.writer.DropLast? {
      DropFrame(s.slots, s.tail, s.dropped, s.filled);
    }
  }

  // ------------------------------------------------------------------ runs

  function Step(n: nat, s: State, ch: Choice): State
    requires WellFormed(n, s)
  {
    if ch.Reader? then ReaderStep(n, s, ch) else WriterStep(n, s, ch)
  }

  lemma StepKeepsInv(n: nat, s: State, ch: Choice)
    requires Inv(n, s)
    ensures Inv(n, Step(n, s, ch))
  {
    if ch.Reader? {
      ReaderKeepsTallied(n, s, ch);
      ReaderKeepsPointing(n, s, ch);
      ReaderKeepsStored(n, s, ch);
    } else {
      WriterKeepsTallied(n, s, ch);
      WriterKeepsPointing(n, s, ch);
      WriterKeepsStored(n, s, ch);
    }
  }

  lemma StepWellFormed(n: nat, s: State, ch: Choice)
    requires WellFormed(n, s)
    ensures WellFormed(n, Step(n, s, ch))
  {
  }

  /** The state after a run: any number of steps in any interleaving. */
  ghost function After(n: nat, s0: State, run: seq<Choice>): (s: State)
    requires WellFormed(n, s0)
    ensures WellFormed(n, s)
  {
    if run == [] then s0
    else
      var p := After(n, s0, run[..|run| - 1]);
      StepWellFormed(n, p, run[|run| - 1]);
      Step(n, p, run[|run| - 1])
  }

  /** Every state of every interleaving satisfies the invariant. */
  lemma {:induction false} RunKeepsInv(n: nat, s0: State, run: seq<Choice>)
    requires Init(n, s0)
    ensures Inv(n, After(n, s0, run))
  {
    if run != [] {
      RunKeepsInv(n, s0, run[..|run| - 1]);
      StepKeepsInv(n, After(n, s0, run[..|run| - 1]), run[|run| - 1]);
    }
  }

  /** The segments come out in order, each once and with the content it was filled with. */
  lemma Delivery(n: nat, s0: State, run: seq<Choice>)
    requires Init(n, s0)
    ensures var s := After(n, s0, run);
            && |s.drained| <= |s.filled| <= |s.drained| + n
            && forall k :: 0 <= k < |s.drained| ==> s.drained[k] == s.filled[k]
  {
    RunKeepsInv(n, s0, run);
  }

  // ------------------------------------------------------------------ what was read

  /** What the reading process has put into the slots it got, oldest first: of each the last content. */
  function Recorded(s: State, ch: Choice, contents: seq<seq<Byte>>): seq<seq<Byte>> {
    if !ch.Reader? then contents
    else if s.reader == Occupy then contents + [[]]
    else if s.reader == Filling && contents != [] then contents[..|contents| - 1] + [ch.data]
    else contents
  }

  ghost function Contents(n: nat, s0: State, run: seq<Choice>): seq<seq<Byte>>
    requires WellFormed(n, s0)
  {
    if run == [] then []
    else
      var prefix := run[..|run| - 1];
      Recorded(After(n, s0, prefix), run[|run| - 1], Contents(n, s0, prefix))
  }

  /** The counted segments have the contents read, and the slot about to be counted has. */
  ghost predicate ContentsOk(s: State, contents: seq<seq<Byte>>) {
    && |contents| == Occupied(s) && contents[..|s.filled|] == s.filled
    && (Holding(s.reader) && !s.reader.Filling? ==>
          s.fill.Some? && s.fill.value < |s.slots| && s.slots[s.fill.value] == contents[|s.filled|])
  }

  lemma WriterKeepsFill(n: nat, s: State, ch: Choice)
    requires Inv(n, s) && ch.Writer? && Holding(s.reader)
    ensures var s' := Step(n, s, ch);
            && s'.reader == s.reader && s'.filled == s.filled && s'.fill == s.fill && s.fill.Some?
            && |s'.slots| == |s.slots| && s'.slots[s.fill.value] == s.slots[s.fill.value]
  {
  }

  lemma ReaderKeepsContents(n: nat, s: State, ch: Choice, contents: seq<seq<Byte>>)
    requires Inv(n, s) && ch.Reader? && ContentsOk(s, contents)
    ensures ContentsOk(Step(n, s, ch), Recorded(s, ch, contents))
  {
  }

  lemma StepKeepsContents(n: nat, s: State, ch: Choice, contents: seq<seq<Byte>>)
    requires Inv(n, s) && ContentsOk(s, contents)
    ensures ContentsOk(Step(n, s, ch), Recorded(s, ch, contents))
  {
    if ch.Reader? {
      ReaderKeepsContents(n, s, ch, contents);
    } else if Holding(s.reader) {
      WriterKeepsFill(n, s, ch);
    }
  }

  lemma {:induction false} RunKeepsContents(n: nat, s0: State, run: seq<Choice>)
    requires Init(n, s0)
    ensures ContentsOk(After(n, s0, run), Contents(n, s0, run))
  {
    if run != [] {
      var prefix := run[..|run| - 1];
      RunKeepsContents(n, s0, prefix);
      RunKeepsInv(n, s0, prefix);
      StepKeepsContents(n, After(n, s0, prefix), run[|run| - 1], Contents(n, s0, prefix));
    }
  }

  /** From reader to writer: the k-th segment drained is what the reader last put into the k-th slot it got. */
  lemma DrainedIsRead(n: nat, s0: State, run: seq<Choice>, k: nat)
    requires Init(n, s0) && k < |After(n, s0, run).drained|
    ensures k < |Contents(n, s0, run)| && After(n, s0, run).drained[k] == Contents(n, s0, run)[k]
  {
    var s, contents := After(n, s0, run), Contents(n, s0, run);
    RunKeepsContents(n, s0, run);
    Delivery(n, s0, run);
    assert s.filled[k] == contents[..|s.filled|][k] == contents[k];
  }

  // ------------------------------------------------------------------ the two sides

  /** The slot being filled is never the slot being drained, and what one side writes the other does not see. */
  lemma FillAndDrainAreApart(n: nat, s0: State, run: seq<Choice>, ch: Choice)
    requires Init(n, s0)
    ensures var s := After(n, s0, run);
            && (Holding(s.reader) && Busy(s.writer) ==> s.fill.Some? && s.last.Some? && s.fill != s.last)
            && (Busy(s.writer) && s.last.Some? && ch.Reader? ==>
                  Step(n, s, ch).slots[s.last.value] == s.slots[s.last.value])
            && (Holding(s.reader) && s.fill.Some? && ch.Writer? ==>
                  Step(n, s, ch).slots[s.fill.value] == s.slots[s.fill.value])
  {
    RunKeepsInv(n, s0, run);
  }

  /** None of the asserts of occupy_buffer, define_buffer and drop_buffer ever fails, and no NULL pointer is used. */
  lemma AssertsHold(n: nat, s0: State, run: seq<Choice>)
    requires Init(n, s0)
    ensures var s := After(n, s0, run);
            && s.reader != ReaderAborted && s.writer != WriterAborted
            && (s.reader.KeepPrevious? ==> 0 <= s.read - s.written <= n)
            && (s.reader.AssertRoom? ==> s.read - s.written < n)
            && (s.writer.AssertData? ==> 0 < s.read - s.written)
  {
    RunKeepsInv(n, s0, run);
  }

  /** While a buffer is filled, the asserts of the two accessors hold except for n == 1 and the first segment. */
  lemma PreviousIsNotRefilled(n: nat, s0: State, run: seq<Choice>)
    requires Init(n, s0)
    ensures var s := After(n, s0, run);
            s.reader.Filling? ==>
              && s.fill.Some?
              && (s.prev.Some? <==> |s.filled| > 0)
              && (s.prev != s.fill <==> n >= 2 || |s.filled| == 0)
  {
    RunKeepsInv(n, s0, run);
  }

  lemma BeforeWindowEnd(n: nat, tail: nat, k: nat, fill: nat, prev: nat)
    requires tail < n && fill < n && prev < n && 1 <= k < n
    requires Inc(fill, n) == Idx(tail, k + 1, n) && Inc(prev, n) == fill
    ensures prev == Idx(tail, k - 1, n)
  {
  }

  lemma LastStored(n: nat, s: State)
    requires WellFormed(n, s) && Pointing(n, s) && Stored(s)
    requires s.reader.Filling? && n >= 2 && |s.drained| < |s.filled|
    ensures s.prev.Some? && s.slots[s.prev.value] == s.filled[|s.filled| - 1]
  {
    BeforeWindowEnd(n, s.tail, |s.filled| - s.dropped, s.fill.value, s.prev.value);
  }

  /** The previous buffer still holds the segment read last, unless the writer has already taken that one. */
  lemma PreviousHoldsLastSegment(n: nat, s0: State, run: seq<Choice>)
    requires Init(n, s0)
    ensures var s := After(n, s0, run);
            s.reader.Filling? && n >= 2 && |s.drained| < |s.filled| ==>
              s.prev.Some? && s.slots[s.prev.value] == s.filled[|s.filled| - 1]
  {
    var s := After(n, s0, run);
    RunKeepsInv(n, s0, run);
    if s.reader.Filling? && n >= 2 && |s.drained| < |s.filled| {
      LastStored(n, s);
    }
  }

  /** A process that does not go on asks for a semaphore that is 0. */
  lemma WaitsOnlyAtZero(n: nat, s: State, ch: Choice)
    requires Inv(n, s) && !ch.more
    ensures var s' := Step(n, s, ch);
            if ch.Reader? then s'.reader == s.reader <==> s.reader.RequestFree? && s.free == 0
            else s'.writer == s.writer <==> s.writer.RequestDef? && s.def == 0
  {
  }

  /** The two processes never wait for each other: in every state at least one of them goes on. */
  lemma NoDeadlock(n: nat, s0: State, run: seq<Choice>, data: seq<Byte>)
    requires Init(n, s0)
    ensures var s := After(n, s0, run);
            || Step(n, s, Reader(data, false)).reader != s.reader
            || Step(n, s, Writer(data, false)).writer != s.writer
  {
    RunKeepsInv(n, s0, run);
    WaitsOnlyAtZero(n, After(n, s0, run), Reader(data, false));
    WaitsOnlyAtZero(n, After(n, s0, run), Writer(data, false));
  }

  /** set_total_buffers makes an initial state for any number of slots, whatever they contain. */
  lemma AnyNumberOfSlots(slots: seq<seq<Byte>>)
    requires slots != []
    ensures Init(|slots|, State(slots, None, None, None, 0, 0, |slots|, 0, RequestFree, RequestDef, [], [], 0, 0))
  {
  }
}
