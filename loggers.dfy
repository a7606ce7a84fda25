/** The two revisions of the CSV logging worker (`LoggingWorker`). Both keep
    a FIFO queue that the receiving side fills while the worker runs and
    that the worker's loop drains into the file; they differ in how the
    queue is drained and in what happens to it when the loop ends.

    The worker thread and the receiving thread are modelled sequentially:
    each method below is one step one of them takes, and stopping is the
    explicit `Stop` call. The file is the sequence of rows written to it. */
module Loggers {
  import opened Common

  type Row = seq<string>

  // ---------------------------------------------------------------------
  // Vector_diagnose_tool_v1.1.py: rows are built by the caller, the loop
  // pops the queue from the front and a final drain follows the loop.

  const Header4: Row := ["Timestamp", "ID_Hex", "DLC", "Data_Hex"]

  class RowLogger {
    /** `_is_running` */
    var running: bool
    /** `self.writer` (and `self.file`) is set */
    var writerSet: bool
    /** `message_queue` */
    var queue: seq<Row>
    /** the rows in the log file, header first */
    var written: seq<Row>
    /** every row the queue has accepted since the file was opened */
    ghost var accepted: seq<Row>

    /** Everything accepted since the file was opened is either in the file,
        after the header, or still queued behind it, in acceptance order. */
    ghost predicate Valid()
      reads this
    {
      && (writerSet ==> written != [] && written[0] == Header4 && written[1..] + queue == accepted)
      && (!writerSet ==> queue == [] && !running)
    }

    constructor ()
      ensures Valid()
      ensures !running && !writerSet && queue == [] && written == [] && accepted == []
    {
      running, writerSet := false, false;
      queue, written := [], [];
      accepted := [];
    }

    /** The start of `run`: set the flag, open the file and write the
        header. */
    method Start()
      requires Valid() && !writerSet
      modifies this
      ensures Valid()
      ensures running && writerSet && written == [Header4] && queue == [] && accepted == []
    {
      running := true;
      written := [Header4];
      writerSet := true;
      accepted := [];
    }

    /** `add_message_to_queue`: a row is queued only while the worker runs
        and its writer is set; otherwise it is dropped. */
    method Enqueue(row: Row)
      requires Valid()
      modifies this
      ensures Valid()
      ensures running == old(running) && writerSet == old(writerSet) && written == old(written)
      ensures queue == old(queue) + (if running && writerSet then [row] else [])
      ensures accepted == old(accepted) + (if running && writerSet then [row] else [])
    {
      if running && writerSet {
        queue := queue + [row];
        accepted := accepted + [row];
      }
    }

    /** One pass of the `while self._is_running` loop: pop every queued row
        from the front and write them in that order. */
    method DrainCycle()
      requires Valid() && writerSet
      modifies this
      ensures Valid()
      ensures running == old(running) && writerSet && accepted == old(accepted)
      ensures queue == [] && written == old(written) + old(queue)
    {
      var batch: seq<Row> := [];
      while queue != []
        invariant batch + queue == old(queue)
        invariant written == old(written) && accepted == old(accepted)
        invariant running == old(running) && writerSet
        decreases |queue|
      {
        batch := batch + [queue[0]];
        queue := queue[1..];
      }
      written := written + batch;
      assert written[1..] == old(written)[1..] + old(queue);
    }

    /** `stop`: clear the flag; the loop ends at its next test. */
    method Stop()
      requires Valid()
      modifies this
      ensures Valid()
      ensures !running && writerSet == old(writerSet)
      ensures queue == old(queue) && written == old(written) && accepted == old(accepted)
    {
      running := false;
    }

    /** What `run` does once its loop has ended: write what is still queued,
        then close the file and clear the writer and the flag. */
    method Finish()
      requires Valid() && writerSet && !running
      modifies this
      ensures Valid()
      ensures !running && !writerSet && queue == []
      ensures written == [Header4] + old(accepted)
      ensures accepted == old(accepted)
    {
      var rest := queue;
      queue := [];
      written := written + rest;
      assert written == [Header4] + (old(written)[1..] + rest);
      writerSet := false;
      running := false;
    }
  }

  // ---------------------------------------------------------------------
  // Vector_diag_guid.py: the worker formats `can.Message` objects itself,
  // swaps the whole queue out per pass and counts the rows it writes.

  /** The `can.Message` fields the logger reads. */
  datatype Frame = Frame(timestamp: real, arbitrationId: nat, dlc: nat, data: seq<byte>,
                         isExtendedId: bool, isRemoteFrame: bool, isErrorFrame: bool)

  const Header7: Row := ["Timestamp", "ID_Hex", "DLC", "Data_Hex", "IsExtended", "IsRemote", "IsError"]

  /** Python's `str()` of a bool. */
  function BoolText(b: bool): (r: string)
    ensures r == (if b then "True" else "False")
    ensures (r == "True") == b
  {
    if b then "True" else "False"
  }

  /** The CSV row written for one frame; `fixed6` stands for `f"{t:.6f}"`. */
  function FrameRow(fixed6: real -> string, m: Frame): (r: Row)
    ensures |r| == |Header7|
  {
    [fixed6(m.timestamp), ToHex(m.arbitrationId), ToDecimal(m.dlc), BytesToHex(m.data),
     BoolText(m.isExtendedId), BoolText(m.isRemoteFrame), BoolText(m.isErrorFrame)]
  }

  /** Every field of a frame can be read back from its row. */
  lemma FrameRowReadsBack(fixed6: real -> string, m: Frame)
    ensures var r := FrameRow(fixed6, m);
      && r[0] == fixed6(m.timestamp)
      && ParseHex(r[1]) == Some(m.arbitrationId) && IsUpperHexText(r[1])
      && ParseDecimal(r[2]) == Some(m.dlc)
      && FromHex(r[3]) == Some(m.data) && IsUpperHexText(r[3])
      && (r[4] == "True") == m.isExtendedId
      && (r[5] == "True") == m.isRemoteFrame
      && (r[6] == "True") == m.isErrorFrame
  {
    HexRoundTrip(m.arbitrationId);
    DecimalRoundTrip(m.dlc);
    BytesHexRoundTrip(m.data);
  }

  /** The rows of a sequence of frames, in order. */
  function FrameRows(fixed6: real -> string, ms: seq<Frame>): (r: seq<Row>)
    ensures |r| == |ms|
    ensures forall k :: 0 <= k < |ms| ==> r[k] == FrameRow(fixed6, ms[k])
  {
    seq(|ms|, k requires 0 <= k < |ms| => FrameRow(fixed6, ms[k]))
  }

  /** The rows of a batch of frames, one per frame in order. */
  method RenderRows(fixed6: real -> string, batch: seq<Frame>) returns (rows: seq<Row>)
    ensures rows == FrameRows(fixed6, batch)
  {
    rows := [];
    var i := 0;
    while i < |batch|
      invariant 0 <= i <= |batch|
      invariant rows == FrameRows(fixed6, batch[..i])
    {
      FrameRowsSnoc(fixed6, batch, i);
      rows := rows + [FrameRow(fixed6, batch[i])];
      i := i + 1;
    }
    assert batch[..i] == batch;
  }

  lemma FrameRowsSnoc(fixed6: real -> string, ms: seq<Frame>, i: nat)
    requires i < |ms|
    ensures FrameRows(fixed6, ms[..i + 1]) == FrameRows(fixed6, ms[..i]) + [FrameRow(fixed6, ms[i])]
  {
    assert ms[..i + 1] == ms[..i] + [ms[i]];
    FrameRowsAppend(fixed6, ms[..i], [ms[i]]);
  }

  /** A log holding the first `n` accepted frames, extended by the rows
      of the rest, holds them all. */
  lemma LogExtends(fixed6: real -> string, accepted: seq<Frame>, n: nat, log: seq<Row>)
    requires n <= |accepted| && log == [Header7] + FrameRows(fixed6, accepted[..n])
    ensures log + FrameRows(fixed6, accepted[n..]) == [Header7] + FrameRows(fixed6, accepted)
  {
    var xs, ys := accepted[..n], accepted[n..];
    assert xs + ys == accepted;
    FrameRowsAppend(fixed6, xs, ys);
    Associative([Header7], FrameRows(fixed6, xs), FrameRows(fixed6, ys));
  }

  lemma Associative<T>(a: seq<T>, b: seq<T>, c: seq<T>)
    ensures (a + b) + c == a + (b + c)
  {
  }

  lemma FrameRowsAppend(fixed6: real -> string, xs: seq<Frame>, ys: seq<Frame>)
    ensures FrameRows(fixed6, xs + ys) == FrameRows(fixed6, xs) + FrameRows(fixed6, ys)
  {
    var l, r := FrameRows(fixed6, xs + ys), FrameRows(fixed6, xs) + FrameRows(fixed6, ys);
    forall k | 0 <= k < |xs + ys|
      ensures l[k] == r[k]
    {
      if k < |xs| {
        assert (xs + ys)[k] == xs[k];
      } else {
        assert (xs + ys)[k] == ys[k - |xs|];
      }
    }
  }

  class FrameLogger {
    const fixed6: real -> string
    /** `_is_running` */
    var running: bool
    /** the file is open: `run` has written the header and not yet closed it */
    var fileOpen: bool
    /** `message_queue` */
    var queue: seq<Frame>
    /** the rows in the log file, header first */
    var written: seq<Row>
    /** `_message_counter` */
    var counter: nat
    /** the frames meant for this file: what was queued when it was opened,
        then everything the queue accepted */
    ghost var accepted: seq<Frame>

    /** The first `counter` accepted frames are in the file after the header,
        in order; the rest are still queued. */
    ghost predicate Valid()
      reads this
    {
      && counter <= |accepted|
      && queue == accepted[counter..]
      && (fileOpen || written != [] ==> written == [Header7] + FrameRows(fixed6, accepted[..counter]))
      && (!fileOpen ==> !running)
    }

    constructor (fixed6: real -> string)
      ensures Valid()
      ensures this.fixed6 == fixed6
      ensures !running && !fileOpen && queue == [] && written == [] && counter == 0 && accepted == []
    {
      this.fixed6 := fixed6;
      running, fileOpen := false, false;
      queue, written := [], [];
      counter := 0;
      accepted := [];
    }

    /** The start of `run`: set the flag, reset the counter, open the file
        and write the header. A queue left over from an earlier run is not
        cleared, so it is written to the new file. */
    method Start()
      requires Valid() && !fileOpen
      modifies this
      ensures Valid()
      ensures running && fileOpen && counter == 0 && written == [Header7]
      ensures queue == old(queue) && accepted == old(queue)
    {
      running := true;
      counter := 0;
      written := [Header7];
      fileOpen := true;
      accepted := queue;
    }

    /** `add_message`: queued only while the worker runs. */
    method AddMessage(m: Frame)
      requires Valid()
      modifies this
      ensures Valid()
      ensures running == old(running) && fileOpen == old(fileOpen)
      ensures written == old(written) && counter == old(counter)
      ensures queue == old(queue) + (if running then [m] else [])
      ensures accepted == old(accepted) + (if running then [m] else [])
    {
      if running {
        queue := queue + [m];
        accepted := accepted + [m];
      }
    }

    /** `add_messages`: the whole list is queued, in its order, only while
        the worker runs. */
    method AddMessages(ms: seq<Frame>)
      requires Valid()
      modifies this
      ensures Valid()
      ensures running == old(running) && fileOpen == old(fileOpen)
      ensures written == old(written) && counter == old(counter)
      ensures queue == old(queue) + (if running then ms else [])
      ensures accepted == old(accepted) + (if running then ms else [])
    {
      if running {
        queue := queue + ms;
        accepted := accepted + ms;
      }
    }

    /** One pass of the `while self._is_running` loop: take the whole queue,
        write one row per frame in queue order and count it. `idle` says
        the batch was empty, the only case in which the loop sleeps. */
    method Cycle() returns (idle: bool)
      requires Valid() && fileOpen
      modifies this
      ensures Valid()
      ensures running == old(running) && fileOpen && accepted == old(accepted)
      ensures queue == []
      ensures written == old(written) + FrameRows(fixed6, old(queue))
      ensures counter == old(counter) + |old(queue)|
      ensures idle <==> old(queue) == []
    {
      var batch := queue;
      var rows := RenderRows(fixed6, batch);
      LogExtends(fixed6, accepted, counter, written);
      queue := [];
      written := written + rows;
      counter := counter + |batch|;
      assert accepted[..counter] == accepted;
      idle := batch == [];
    }

    /** `stop`: clear the flag; the loop ends at its next test. */
    method Stop()
      requires Valid()
      modifies this
      ensures Valid()
      ensures !running && fileOpen == old(fileOpen)
      ensures queue == old(queue) && written == old(written) && counter == old(counter)
      ensures accepted == old(accepted)
    {
      running := false;
    }

    /** What `run` does once its loop has ended, as written: close the file
        and clear the flag. Nothing drains the queue first, so the frames
        queued after the last pass stay out of the file. */
    method Finish()
      requires Valid() && fileOpen && !running
      modifies this
      ensures Valid()
      ensures !running && !fileOpen
      ensures queue == old(queue) && written == old(written) && counter == old(counter)
      ensures accepted == old(accepted)
      ensures |written| == 1 + |accepted| - |queue|
    {
      fileOpen := false;
      running := false;
    }

    /** `Finish` with the final drain the earlier revision has: every frame
        meant for the file is in it, exactly once and in order. */
    method FinishDraining()
      requires Valid() && fileOpen && !running
      modifies this
      ensures Valid()
      ensures !running && !fileOpen && queue == []
      ensures written == [Header7] + FrameRows(fixed6, old(accepted))
      ensures counter == |old(accepted)| && accepted == old(accepted)
    {
      var _ := Cycle();
      fileOpen := false;
      running := false;
    }
  }

  /** A frame queued between the last pass and `stop` never reaches the
      file: after `Finish` it is still queued and the file holds the header
      alone. */
  method LeftoverDropped(fixed6: real -> string, m: Frame) returns (log: FrameLogger)
    ensures fresh(log)
    ensures log.accepted == [m] && log.queue == [m]
    ensures log.written == [Header7] && log.counter == 0
    ensures !log.fileOpen
  {
    log := new FrameLogger(fixed6);
    log.Start();
    var _ := log.Cycle();
    log.AddMessage(m);
    log.Stop();
    log.Finish();
  }

  /** With the final drain, the same frame is written. */
  method LeftoverWritten(fixed6: real -> string, m: Frame) returns (log: FrameLogger)
    ensures fresh(log)
    ensures log.written == [Header7, FrameRow(fixed6, m)] && log.counter == 1
    ensures log.queue == [] && !log.fileOpen
  {
    log := new FrameLogger(fixed6);
    log.Start();
    var _ := log.Cycle();
    log.AddMessage(m);
    log.Stop();
    log.FinishDraining();
    assert FrameRows(fixed6, [m]) == [FrameRow(fixed6, m)];
  }
}
