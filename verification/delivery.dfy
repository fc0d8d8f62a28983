/**
 * `QRAttendanceLogger`: producers call `log`, which timestamps the text and
 * puts a record on the queue; one worker takes records off the queue, first
 * re-reads the fallback file of earlier failures back onto the queue, then
 * sends the record's line to the blob of its month, and on any failure
 * appends the line to the fallback file instead.
 *
 * Everything is a pure step over one `State`: the clock reading and the
 * behaviour of the remote calls are parameters.
 */
module Delivery {
  import opened Wrappers
  import opened Text
  import opened Timestamps
  import opened Records
  import AzureSink

  /**
   * The queue of pending records, the fallback file (`None` when the file
   * does not exist, else its text), and the blob client.
   */
  datatype State = State(queue: seq<LogItem>, fallback: Option<string>, sink: AzureSink.AzureLogger)

  /** `log(text)`: the record `(now, text)` joins the tail of the queue; nothing else changes. */
  function Log(s: State, text: string, now: Timestamp): (r: State)
    ensures |r.queue| == |s.queue| + 1
    ensures r.queue[..|s.queue|] == s.queue && r.queue[|s.queue|] == LogItem(now, text)
    ensures r.fallback == s.fallback && r.sink == s.sink
  {
    s.(queue := s.queue + [LogItem(now, text)])
  }

  /** `_log_to_tempfile(text)`: opens the fallback file for appending and writes the text at its end. */
  function LogToTempfile(fallback: Option<string>, text: string): (r: Option<string>)
    ensures r.Some?
    ensures |r.value| == |fallback.GetOr("")| + |text|
    ensures r.value[..|fallback.GetOr("")|] == fallback.GetOr("")
    ensures r.value[|fallback.GetOr("")|..] == text
  {
    match fallback
    case None => Some(text)
    case Some(content) => Some(content + text)
  }

  /**
   * Appending a complete line to a file of complete lines adds exactly that
   * line, after the lines already there.
   */
  lemma AppendAddsOneLine(lines: seq<string>, fallback: Option<string>, line: string)
    requires forall k :: 0 <= k < |lines| ==> IsLine(lines[k])
    requires fallback.GetOr("") == Concat(lines)
    requires IsLine(line)
    ensures ReadLines(LogToTempfile(fallback, line).value) == lines + [line]
  {
    var all := lines + [line];
    ConcatAppend(lines, [line]);
    assert Concat([line]) == line by {
      assert [line][1..] == [];
    }
    assert LogToTempfile(fallback, line).value == Concat(all);
    ReadLinesOfLines(all);
  }

  /** The records a fallback file yields when it is read back: none when there is no file. */
  function Requeued(fallback: Option<string>): (items: seq<LogItem>)
    ensures forall k :: 0 <= k < |items| ==> Clean(items[k])
  {
    match fallback
    case None => []
    case Some(content) => ParseLines(ReadLines(content))
  }

  /**
   * `_requeue_tempfile`: when the fallback file exists, every line that parses
   * is put on the queue tail in file order, lines that do not parse are
   * dropped, and the file is removed.
   */
  function Requeue(s: State): (r: State)
    ensures r.fallback.None? && r.sink == s.sink
    ensures |s.queue| <= |r.queue| && r.queue[..|s.queue|] == s.queue
    ensures r.queue[|s.queue|..] == Requeued(s.fallback)
    ensures s.fallback.Some? ==> |r.queue| <= |s.queue| + |ReadLines(s.fallback.value)|
    ensures s.fallback.None? ==> r == s
  {
    match s.fallback
    case None => s
    case Some(content) => s.(queue := s.queue + ParseLines(ReadLines(content)), fallback := None)
  }

  /** Requeueing appends exactly the records the fallback file yields. */
  lemma RequeueAppends(s: State, items: seq<LogItem>)
    requires Requeued(s.fallback) == items
    ensures Requeue(s).queue == s.queue + items
  {
    var r := Requeue(s);
    assert r.queue == r.queue[..|s.queue|] + r.queue[|s.queue|..];
  }

  /** A fallback file of serialized clean records puts exactly those records back, in order. */
  lemma RequeueRoundTrip(s: State, items: seq<LogItem>)
    requires forall k :: 0 <= k < |items| ==> Clean(items[k])
    requires s.fallback == Some(Concat(Lines(items)))
    ensures Requeue(s).queue == s.queue + items
    ensures Requeue(s).fallback.None?
  {
    ReadBackLines(items);
    RequeueAppends(s, items);
  }

  /**
   * One malformed line among well-formed ones: the records around it are all
   * put back, the malformed line is dropped, and the file is gone.
   */
  lemma RequeueSkipsCorruptLine(s: State, before: seq<LogItem>, bad: string, after: seq<LogItem>)
    requires forall k :: 0 <= k < |before| ==> Clean(before[k])
    requires forall k :: 0 <= k < |after| ==> Clean(after[k])
    requires IsLine(bad) && ParseLine(bad).None?
    requires s.fallback == Some(Concat(Lines(before) + [bad] + Lines(after)))
    ensures Requeue(s).queue == s.queue + before + after
    ensures Requeue(s).fallback.None?
  {
    var lines := Lines(before) + [bad] + Lines(after);
    LinesAroundAreLines(before, bad, after);
    ReadLinesOfLines(lines);
    ParsedAround(before, bad, after);
    RequeueAppends(s, before + after);
    AppendAssoc(s.queue, before, after);
  }

  lemma LinesAroundAreLines(before: seq<LogItem>, bad: string, after: seq<LogItem>)
    requires forall k :: 0 <= k < |before| ==> Clean(before[k])
    requires forall k :: 0 <= k < |after| ==> Clean(after[k])
    requires IsLine(bad)
    ensures var lines := Lines(before) + [bad] + Lines(after);
            forall k :: 0 <= k < |lines| ==> IsLine(lines[k])
  {
    LinesAreLines(before);
    LinesAreLines(after);
  }

  lemma ParsedAround(before: seq<LogItem>, bad: string, after: seq<LogItem>)
    requires forall k :: 0 <= k < |before| ==> Clean(before[k])
    requires forall k :: 0 <= k < |after| ==> Clean(after[k])
    requires ParseLine(bad).None?
    ensures ParseLines(Lines(before) + [bad] + Lines(after)) == before + after
  {
    CorruptLineIsolated(Lines(before), bad, Lines(after));
    ParseLinesOfSerialized(before);
    ParseLinesOfSerialized(after);
  }

  /**
   * One pass of the worker loop (`handle_queue`), once a record is available:
   * take the head, re-read the fallback file, compute the record's blob and
   * line, send the line; on failure append it to the fallback file.
   */
  function Cycle(s: State, f: AzureSink.Faults): (r: State)
    requires |s.queue| > 0
    ensures r.queue == s.queue[1..] + Requeued(s.fallback)
    ensures r.fallback == None || r.fallback == Some(Serialize(s.queue[0]))
    ensures r.sink.service.Some? == s.sink.service.Some?
    ensures s.sink.service.None? ==> r.fallback == Some(Serialize(s.queue[0])) && r.sink == s.sink
    ensures AzureSink.Coherent(s.sink) ==> AzureSink.Coherent(r.sink)
    ensures AzureSink.Coherent(s.sink) && r.fallback.None? ==>
              var b := BlobName(s.queue[0].timestamp);
              AzureSink.Content(r.sink, b) == AzureSink.Content(s.sink, b) + Serialize(s.queue[0])
    ensures AzureSink.Coherent(s.sink) ==>
              forall b :: b != BlobName(s.queue[0].timestamp) || r.fallback.Some? ==>
                AzureSink.Content(r.sink, b) == AzureSink.Content(s.sink, b)
    ensures AzureSink.Coherent(s.sink) && s.sink.service.Some? && f == AzureSink.NoFaults ==>
              r.fallback.None?
  {
    var head := s.queue[0];
    var s1 := Requeue(s.(queue := s.queue[1..]));
    var blobName := BlobName(head.timestamp);
    var line := Serialize(head);
    var o := AzureSink.Log(s1.sink, line, blobName, f);
    if o.result.Success? then s1.(sink := o.logger)
    else s1.(sink := o.logger, fallback := LogToTempfile(s1.fallback, line))
  }

  /** A file holding one record's line reads back as that single line. */
  lemma OneLineReadsBack(item: LogItem)
    requires '\n' !in item.text
    ensures ReadLines(Serialize(item)) == [Serialize(item)]
  {
    var line := Serialize(item);
    SerializeIsLine(item);
    assert Concat([line]) == line by {
      assert [line][1..] == [];
    }
    ReadLinesOfLines([line]);
  }

  /**
   * After any cycle, the fallback file is gone or holds exactly one line: the
   * line of the record that just failed. Earlier lines were re-read before
   * the attempt.
   */
  lemma FallbackHoldsOneLine(s: State, f: AzureSink.Faults)
    requires |s.queue| > 0 && '\n' !in s.queue[0].text
    ensures var r := Cycle(s, f);
            r.fallback.None? || ReadLines(r.fallback.value) == [Serialize(s.queue[0])]
  {
    OneLineReadsBack(s.queue[0]);
  }

  /**
   * A record whose delivery failed comes back: in any later state whose
   * fallback file is still the one the failed cycle left (`log` calls never
   * touch it), the next cycle, whatever record it takes and however the
   * remote behaves, puts the failed record on the queue tail.
   */
  lemma FailedRecordIsRetried(s: State, f: AzureSink.Faults, s2: State, f2: AzureSink.Faults)
    requires |s.queue| > 0 && Clean(s.queue[0])
    requires Cycle(s, f).fallback.Some?
    requires |s2.queue| > 0 && s2.fallback == Cycle(s, f).fallback
    ensures Cycle(s2, f2).queue == s2.queue[1..] + [s.queue[0]]
  {
    OneLineFile(s.queue[0]);
    ReadBackLines([s.queue[0]]);
  }

  /** After a failed cycle and any number of `log` calls, the next cycle puts the failed record back. */
  lemma FailedRecordAfterLogs(s: State, f: AzureSink.Faults, s2: State, text: string, now: Timestamp,
                              f2: AzureSink.Faults)
    requires |s.queue| > 0 && Clean(s.queue[0])
    requires Cycle(s, f).fallback.Some?
    requires s2.fallback == Cycle(s, f).fallback
    ensures var s3 := Log(s2, text, now);
            Cycle(s3, f2).queue == s3.queue[1..] + [s.queue[0]]
  {
    FailedRecordIsRetried(s, f, Log(s2, text, now), f2);
  }

  /** What the producer and the worker do, one at a time. */
  datatype Event =
    | Logged(text: string, now: Timestamp)   // a producer calls `log`
    | Worked(faults: AzureSink.Faults)        // the worker runs a cycle, if a record is queued

  /** One event; the worker stays blocked on an empty queue. */
  function Step(s: State, e: Event): State
  {
    match e
    case Logged(text, now) => Log(s, text, now)
    case Worked(f) => if |s.queue| == 0 then s else Cycle(s, f)
  }

  /** The state after the events, one at a time, in order. */
  function Run(s: State, events: seq<Event>): State
    decreases |events|
  {
    if |events| == 0 then s else Run(Step(s, events[0]), events[1..])
  }

  /** The records the producer calls of a run enqueue, in call order. */
  function LoggedItems(events: seq<Event>): (items: seq<LogItem>)
    ensures |items| <= |events|
  {
    if |events| == 0 then []
    else
      (match events[0] case Logged(text, now) => [LogItem(now, text)] case Worked(_) => [])
      + LoggedItems(events[1..])
  }

  /** The lines one record adds to blob `b`. */
  function LineFor(item: LogItem, b: string): string
  {
    if BlobName(item.timestamp) == b then Serialize(item) else []
  }

  /** The lines of those records that belong to blob `b`, in order. */
  function Partition(items: seq<LogItem>, b: string): string
  {
    if |items| == 0 then []
    else LineFor(items[0], b) + Partition(items[1..], b)
  }

  /** Connected, coherent, and with no fallback file. */
  ghost predicate Healthy(s: State)
  {
    s.sink.service.Some? && AzureSink.Coherent(s.sink) && s.fallback.None?
  }

  /** Every cycle of the run meets no remote fault. */
  ghost predicate AllSucceed(events: seq<Event>)
  {
    forall i :: 0 <= i < |events| && events[i].Worked? ==> events[i].faults == AzureSink.NoFaults
  }

  /** With a reachable sink that accepts every call, one cycle delivers the head and nothing else. */
  lemma HealthyCycle(s: State)
    requires Healthy(s) && |s.queue| > 0
    ensures var r := Cycle(s, AzureSink.NoFaults);
            && Healthy(r)
            && r.queue == s.queue[1..]
            && forall b :: AzureSink.Content(r.sink, b) == AzureSink.Content(s.sink, b) + LineFor(s.queue[0], b)
  {
  }

  lemma {:induction false} PartitionAppend(a: seq<LogItem>, c: seq<LogItem>, b: string)
    ensures Partition(a + c, b) == Partition(a, b) + Partition(c, b)
    decreases |a|
  {
    if |a| > 0 {
      assert (a + c)[1..] == a[1..] + c;
      PartitionAppend(a[1..], c, b);
    } else {
      assert a + c == c;
    }
  }

  /** Every blob of `r` holds what it held in `s0` plus the lines of the first `d` records of `all`. */
  ghost predicate Delivered(s0: State, r: State, all: seq<LogItem>, d: nat)
    requires d <= |all|
  {
    forall b :: AzureSink.Content(r.sink, b) == AzureSink.Content(s0.sink, b) + Partition(all[..d], b)
  }

  /**
   * What a run has delivered, relative to the start state `s0` and the
   * records `all` queued so far: the queue holds a suffix of `all`, and every
   * blob received the lines of the records before that suffix.
   */
  ghost predicate FifoInv(s0: State, r: State, all: seq<LogItem>)
  {
    && Healthy(r)
    && |r.queue| <= |all|
    && r.queue == all[|all| - |r.queue|..]
    && Delivered(s0, r, all, |all| - |r.queue|)
  }

  /** A `log` call keeps `FifoInv`: the new record joins both the queue and `all`. */
  lemma LoggedKeepsFifo(s0: State, s: State, text: string, now: Timestamp, all: seq<LogItem>)
    requires FifoInv(s0, s, all)
    ensures FifoInv(s0, Log(s, text, now), all + [LogItem(now, text)])
  {
    var d := |all| - |s.queue|;
    var r := Log(s, text, now);
    var all' := all + [LogItem(now, text)];
    assert all'[..d] == all[..d];
    assert all'[d..] == r.queue;
  }

  /** The records delivered so far, one more of them, and the lines that adds to blob `b`. */
  lemma DeliveredOneMore(all: seq<LogItem>, d: nat, b: string)
    requires d < |all|
    ensures Partition(all[..d + 1], b) == Partition(all[..d], b) + LineFor(all[d], b)
  {
    assert all[..d + 1] == all[..d] + [all[d]];
    PartitionAppend(all[..d], [all[d]], b);
    assert [all[d]][1..] == [];
  }

  /** Delivering record `d` of `all` to its blob extends what was delivered by that record. */
  lemma DeliverNext(s0: State, s: State, r: State, all: seq<LogItem>, d: nat)
    requires d < |all| && Delivered(s0, s, all, d)
    requires forall b :: AzureSink.Content(r.sink, b) == AzureSink.Content(s.sink, b) + LineFor(all[d], b)
    ensures Delivered(s0, r, all, d + 1)
  {
    forall b
      ensures AzureSink.Content(r.sink, b) == AzureSink.Content(s0.sink, b) + Partition(all[..d + 1], b)
    {
      DeliveredOneMore(all, d, b);
      AppendAssoc(AzureSink.Content(s0.sink, b), Partition(all[..d], b), LineFor(all[d], b));
    }
  }

  /** Moving the head of the queue into its blob keeps `FifoInv`. */
  lemma AdvanceKeepsFifo(s0: State, s: State, r: State, all: seq<LogItem>)
    requires FifoInv(s0, s, all) && |s.queue| > 0
    requires Healthy(r) && r.queue == s.queue[1..]
    requires forall b :: AzureSink.Content(r.sink, b) == AzureSink.Content(s.sink, b) + LineFor(s.queue[0], b)
    ensures FifoInv(s0, r, all)
  {
    var d := |all| - |s.queue|;
    assert |all| - |r.queue| == d + 1;
    assert all[d] == s.queue[0];
    assert all[d + 1..] == r.queue;
    DeliverNext(s0, s, r, all, d);
  }

  /** A successful cycle keeps `FifoInv`: the head moves from the queue into its blob. */
  lemma WorkedKeepsFifo(s0: State, s: State, all: seq<LogItem>)
    requires FifoInv(s0, s, all) && |s.queue| > 0
    ensures FifoInv(s0, Cycle(s, AzureSink.NoFaults), all)
  {
    HealthyCycle(s);
    AdvanceKeepsFifo(s0, s, Cycle(s, AzureSink.NoFaults), all);
  }

  /** Each event of a run in which every remote call succeeds keeps `FifoInv`. */
  lemma StepKeepsFifo(s0: State, s: State, e: Event, all: seq<LogItem>)
    requires FifoInv(s0, s, all)
    requires e.Worked? ==> e.faults == AzureSink.NoFaults
    ensures FifoInv(s0, Step(s, e), all + LoggedItems([e]))
  {
    assert [e][1..] == [];
    match e
    case Logged(text, now) =>
      LoggedKeepsFifo(s0, s, text, now, all);
    case Worked(f) =>
      assert all + LoggedItems([e]) == all;
      if |s.queue| > 0 {
        WorkedKeepsFifo(s0, s, all);
      }
  }

  /** The records of a run are those of its first event followed by those of the rest. */
  lemma LoggedItemsCons(events: seq<Event>)
    requires |events| > 0
    ensures LoggedItems(events) == LoggedItems([events[0]]) + LoggedItems(events[1..])
  {
    assert [events[0]][1..] == [];
  }

  /** Associativity of `+` on sequences; it only moves the solver along on equal terms. */
  lemma AppendAssoc<T>(a: seq<T>, x: seq<T>, y: seq<T>)
    ensures (a + x) + y == a + (x + y)
  {
  }

  /** `FifoInv` carries over to equal states and record sequences; it only moves the solver along on equal terms. */
  lemma FifoTransfer(s0: State, r1: State, r2: State, a1: seq<LogItem>, a2: seq<LogItem>)
    requires FifoInv(s0, r1, a1) && r1 == r2 && a1 == a2
    ensures FifoInv(s0, r2, a2)
  {
  }

  /** A whole run in which every remote call succeeds keeps `FifoInv`, counting the records it logs. */
  lemma {:induction false} RunKeepsFifo(s0: State, s: State, events: seq<Event>, all: seq<LogItem>)
    requires FifoInv(s0, s, all) && AllSucceed(events)
    ensures FifoInv(s0, Run(s, events), all + LoggedItems(events))
    decreases |events|
  {
    if |events| > 0 {
      var e := events[0];
      var rest := events[1..];
      assert AllSucceed(rest) by {
        forall i | 0 <= i < |rest| && rest[i].Worked?
          ensures rest[i].faults == AzureSink.NoFaults
        {
          assert rest[i] == events[i + 1];
        }
      }
      var all1 := all + LoggedItems([e]);
      StepKeepsFifo(s0, s, e, all);
      RunKeepsFifo(s0, Step(s, e), rest, all1);
      LoggedItemsCons(events);
      AppendAssoc(all, LoggedItems([e]), LoggedItems(rest));
      FifoTransfer(s0, Run(Step(s, e), rest), Run(s, events), all1 + LoggedItems(rest), all + LoggedItems(events));
    } else {
      assert all + LoggedItems(events) == all;
    }
  }

  /** A healthy state has delivered nothing of its own queue yet. */
  lemma FifoStart(s: State)
    requires Healthy(s)
    ensures FifoInv(s, s, s.queue)
  {
    assert s.queue[..0] == [];
  }

  /**
   * Ordering: while every remote call succeeds, the records delivered so far
   * are a prefix of everything queued, in queue order, the rest is still
   * queued, no fallback file appears, and each blob received exactly the
   * lines of the delivered records of its month, in that order.
   */
  lemma FifoDelivery(s: State, events: seq<Event>)
    requires Healthy(s) && AllSucceed(events)
    ensures FifoInv(s, Run(s, events), s.queue + LoggedItems(events))
  {
    FifoStart(s);
    RunKeepsFifo(s, s, events, s.queue);
  }
}
