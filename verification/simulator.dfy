/** The transmission-progress state machine. A run starts at 0 bytes sent, on the
    first file, at offset 0. Each step draws a chunk, clamps it to the bytes left
    in the active file, advances the sent counter and the offset, labels the
    step by its percentage, and moves round-robin to the next file once the
    active one is exhausted. The run ends when the sent counter reaches the total.

    The random chunk sizes are given as a sequence of draws; pacing sleeps and
    the progress-bar rendering are not modelled. */
module ProgressSimulator {
  import opened FileCatalog
  import opened PhaseLabels

  /** Bounds of a chunk draw, in bytes, both inclusive. */
  const MinChunk: nat := 20000
  const MaxChunk: nat := 60000

  /** Loop state: bytes sent so far, index of the active file, bytes of it already sent. */
  datatype SimState = SimState(sent: nat, fileIdx: nat, offset: nat)

  const Start: SimState := SimState(0, 0, 0)

  /** What one step reports: bytes advanced, the sent counter after the step,
      the file the bytes came from, and the phase of the new percentage. */
  datatype Event = Event(advance: nat, sent: nat, fileIndex: nat, fileName: string, phase: Phase)

  /** The state names a file of the listing and lies within it. */
  predicate InFile(files: seq<FileEntry>, s: SimState)
  {
    s.fileIdx < |files| && s.offset <= files[s.fileIdx].size
  }

  /** One iteration of the loop body, for a chunk drawn by the random source. */
  function Step(files: seq<FileEntry>, total: nat, s: SimState, chunk: nat): (r: (Event, SimState))
    requires InFile(files, s) && s.sent < total
    ensures var e, t := r.0, r.1; var size := files[s.fileIdx].size;
      // the clamp: the chunk is cut exactly at the end of the active file
      && e.advance <= chunk
      && s.offset + e.advance <= size
      && (e.advance == chunk || s.offset + e.advance == size)
      && e.sent == t.sent == s.sent + e.advance
      && e.fileIndex == s.fileIdx && e.fileName == files[s.fileIdx].name
      && e.phase == PhaseOf(e.sent, total)
      && InFile(files, t)
      // the round-robin move happens exactly when the file is exhausted
      && (s.offset + e.advance < size ==> t.fileIdx == s.fileIdx && t.offset == s.offset + e.advance)
      && (s.offset + e.advance == size ==> t.fileIdx == (s.fileIdx + 1) % |files| && t.offset == 0)
  {
    var file := files[s.fileIdx];
    var remain := file.size - s.offset;
    var send := if chunk < remain then chunk else remain;
    var sent := s.sent + send;
    var offset := s.offset + send;
    var e := Event(send, sent, s.fileIdx, file.name, PhaseOf(sent, total));
    if offset >= file.size then (e, SimState(sent, (s.fileIdx + 1) % |files|, 0))
    else (e, SimState(sent, s.fileIdx, offset))
  }

  /** `s` is `pos` files into the listing without ever wrapping: every byte of
      the files before `pos` and `offset` bytes of file `pos` have been sent.
      Once all files are done (`pos == |files|`) the index has wrapped to 0.
      A file is left with its offset at its size only when it is empty. */
  ghost predicate Tracks(files: seq<FileEntry>, s: SimState, pos: nat)
  {
    && pos <= |files|
    && s.sent == SumSizes(files[..pos]) + s.offset
    && (pos < |files| ==>
          && s.fileIdx == pos
          && s.offset <= files[pos].size
          && (s.offset < files[pos].size || s.offset == 0))
    && (pos == |files| ==> s.fileIdx == 0 && s.offset == 0)
  }

  /** While bytes remain, the run is on a real file. */
  lemma TracksRunning(files: seq<FileEntry>, s: SimState, pos: nat)
    requires Tracks(files, s, pos) && s.sent < SumSizes(files)
    ensures pos < |files|
  {
    assert files[..|files|] == files;
  }

  /** The tracked counter never exceeds the total. */
  lemma TracksBounded(files: seq<FileEntry>, s: SimState, pos: nat)
    requires Tracks(files, s, pos)
    ensures s.sent <= SumSizes(files)
  {
    if pos < |files| {
      assert files == files[..pos] + ([files[pos]] + files[pos + 1..]);
      SumSizesAppend(files[..pos], [files[pos]] + files[pos + 1..]);
      SumSizesAppend([files[pos]], files[pos + 1..]);
    } else {
      assert files[..pos] == files;
    }
  }

  /** A step keeps the tracking invariant, moving `pos` forward exactly when the
      active file is exhausted; it sends no byte exactly when that file is empty. */
  lemma StepKeepsTracking(files: seq<FileEntry>, total: nat, s: SimState, pos: nat, chunk: nat)
    requires total == SumSizes(files) && s.sent < total && chunk >= 1
    requires Tracks(files, s, pos) && pos < |files|
    ensures var r := Step(files, total, s, chunk);
      && Tracks(files, r.1, if s.offset + r.0.advance == files[pos].size then pos + 1 else pos)
      && (r.0.advance == 0 <==> files[pos].size == 0)
  {
    var r := Step(files, total, s, chunk);
    AdvanceKeepsTracking(files, s, pos, r.0.advance, r.1);
  }

  /** The arithmetic of one step, for any advance the clamp allows. */
  lemma AdvanceKeepsTracking(files: seq<FileEntry>, s: SimState, pos: nat, advance: nat, t: SimState)
    requires Tracks(files, s, pos) && pos < |files|
    requires s.offset + advance <= files[pos].size
    requires t.sent == s.sent + advance
    requires s.offset + advance < files[pos].size ==> t.fileIdx == pos && t.offset == s.offset + advance
    requires s.offset + advance == files[pos].size ==> t.fileIdx == (pos + 1) % |files| && t.offset == 0
    ensures Tracks(files, t, if s.offset + advance == files[pos].size then pos + 1 else pos)
  {
    if s.offset + advance == files[pos].size {
      assert files[..pos + 1] == files[..pos] + [files[pos]];
      SumSizesAppend(files[..pos], [files[pos]]);
      NextIndex(pos, |files|);
    }
  }

  /** The round-robin successor of a file before the last is the next file; that of the last is 0. */
  lemma NextIndex(i: nat, n: nat)
    requires i < n
    ensures i + 1 < n ==> (i + 1) % n == i + 1
    ensures i + 1 == n ==> (i + 1) % n == 0
  {
  }

  /** When everything is sent, the files from `pos` on are all empty and the
      offset is 0: nothing is left unsent and nothing was sent twice. */
  lemma FinishedRest(files: seq<FileEntry>, s: SimState, pos: nat)
    requires Tracks(files, s, pos) && s.sent == SumSizes(files)
    ensures s.offset == 0
    ensures forall f :: pos <= f < |files| ==> files[f].size == 0
  {
    var rest := files[pos..];
    assert files == files[..pos] + rest;
    SumSizesAppend(files[..pos], rest);
    assert s.offset == SumSizes(rest);
    if pos < |files| {
      EntryAtMostSum(rest, 0);
    }
    forall f | pos <= f < |files|
      ensures files[f].size == 0
    {
      EntryAtMostSum(rest, f - pos);
    }
  }

  /** Bytes advanced over a sequence of events. */
  function SumAdvances(events: seq<Event>): nat
  {
    if |events| == 0 then 0 else SumAdvances(events[..|events| - 1]) + events[|events| - 1].advance
  }

  /** Bytes advanced from file `f` over a sequence of events. */
  function FileSent(events: seq<Event>, f: nat): nat
  {
    if |events| == 0 then 0
    else FileSent(events[..|events| - 1], f)
         + (if events[|events| - 1].fileIndex == f then events[|events| - 1].advance else 0)
  }

  /** What the i-th event of a run states about its own step: the file it came
      from, the clamped draw, the counter after it and the phase of that counter. */
  ghost predicate EventOk(files: seq<FileEntry>, total: nat, chunks: seq<nat>, events: seq<Event>, i: nat)
  {
    && i < |events| && i < |chunks|
    && events[i].fileIndex < |files|
    && events[i].fileName == files[events[i].fileIndex].name
    && events[i].advance <= chunks[i]
    && (events[i].advance == 0 <==> files[events[i].fileIndex].size == 0)
    && events[i].sent == SumAdvances(events[..i + 1])
    && events[i].sent <= total
    && 0 < total && events[i].phase == PhaseOf(events[i].sent, total)
  }

  /** Every event of a run is well formed, and each consumed one draw. */
  ghost predicate WellFormedEvents(files: seq<FileEntry>, total: nat, chunks: seq<nat>, events: seq<Event>)
  {
    && |events| <= |chunks|
    && forall i :: 0 <= i < |events| ==> EventOk(files, total, chunks, events, i)
  }

  /** The sent counter and the file index never go back from one event to a later one. */
  ghost predicate Monotone(events: seq<Event>)
  {
    && (forall i, j :: 0 <= i <= j < |events| ==> events[i].sent <= events[j].sent)
    && (forall i, j :: 0 <= i <= j < |events| ==> events[i].fileIndex <= events[j].fileIndex)
  }

  /** Bytes sent per file: all of every file before `pos`, `offset` of file `pos`, none after. */
  ghost predicate FileCounts(files: seq<FileEntry>, events: seq<Event>, pos: nat, offset: nat)
  {
    forall f :: 0 <= f < |files| ==>
      FileSent(events, f) == (if f < pos then files[f].size else if f == pos then offset else 0)
  }

  /** The counter half of the loop invariant: the state tracks `pos` files, and
      the events so far account for exactly the bytes sent, per file and in all. */
  ghost predicate Counters(files: seq<FileEntry>, total: nat, events: seq<Event>, s: SimState, pos: nat)
  {
    && Tracks(files, s, pos)
    && s.sent <= total
    && |events| <= s.sent + pos
    && SumAdvances(events) == s.sent
    && FileCounts(files, events, pos, s.offset)
    && (|events| > 0 ==> events[|events| - 1].sent == s.sent)
  }

  /** The event half of the loop invariant: every event is well formed, the log
      is monotone, and no event came from a file past `pos`. */
  ghost predicate EventLog(files: seq<FileEntry>, total: nat, chunks: seq<nat>, events: seq<Event>, pos: nat)
  {
    && WellFormedEvents(files, total, chunks, events)
    && Monotone(events)
    && (forall i :: 0 <= i < |events| ==> events[i].fileIndex <= pos)
  }

  /** The loop invariant of the simulation, over the events so far and the current state. */
  ghost predicate RunSoFar(files: seq<FileEntry>, total: nat, chunks: seq<nat>,
                           events: seq<Event>, s: SimState, pos: nat)
  {
    Counters(files, total, events, s, pos) && EventLog(files, total, chunks, events, pos)
  }

  /** The loop invariant holds before the first step. */
  lemma RunStarts(files: seq<FileEntry>, total: nat, chunks: seq<nat>)
    ensures RunSoFar(files, total, chunks, [], Start, 0)
  {
    assert files[..0] == [];
  }

  /** The unwrapped file position after a step that advanced `advance` bytes from state `s`. */
  function NextPos(files: seq<FileEntry>, s: SimState, pos: nat, advance: nat): nat
    requires pos < |files|
  {
    if s.offset + advance == files[pos].size then pos + 1 else pos
  }

  /** One step of the loop keeps its invariant and makes progress: either bytes
      are sent or the run moves on to the next file. */
  lemma RunStep(files: seq<FileEntry>, total: nat, chunks: seq<nat>, events: seq<Event>, s: SimState, pos: nat)
    requires total == SumSizes(files) && s.sent < total
    requires forall i :: 0 <= i < |chunks| ==> MinChunk <= chunks[i] <= MaxChunk
    requires |chunks| >= total + |files|
    requires RunSoFar(files, total, chunks, events, s, pos)
    ensures pos < |files| && InFile(files, s) && |events| < |chunks|
    ensures var r := Step(files, total, s, chunks[|events|]);
      && RunSoFar(files, total, chunks, events + [r.0], r.1, NextPos(files, s, pos, r.0.advance))
      && (s.sent < r.1.sent || NextPos(files, s, pos, r.0.advance) == pos + 1)
  {
    TracksRunning(files, s, pos);
    var k := |events|;
    var r := Step(files, total, s, chunks[k]);
    var e, t := r.0, r.1;
    var pos' := NextPos(files, s, pos, e.advance);
    StepKeepsTracking(files, total, s, pos, chunks[k]);
    CountersStep(files, total, events, s, pos, e, t, pos');
    EventLogStep(files, total, chunks, events, pos, e, pos');
  }

  /** The counter half of the invariant after one step. */
  lemma CountersStep(files: seq<FileEntry>, total: nat, events: seq<Event>, s: SimState, pos: nat,
                     e: Event, t: SimState, pos': nat)
    requires Counters(files, total, events, s, pos) && pos < |files| && total == SumSizes(files)
    requires e.fileIndex == pos && e.sent == t.sent == s.sent + e.advance
    requires Tracks(files, t, pos')
    requires pos' == pos ==> t.offset == s.offset + e.advance && 1 <= e.advance
    requires pos' == pos + 1 ==> s.offset + e.advance == files[pos].size && t.offset == 0
    requires pos' == pos || pos' == pos + 1
    ensures Counters(files, total, events + [e], t, pos')
  {
    TracksBounded(files, t, pos');
    assert (events + [e])[..|events|] == events;
    FileSentStep(events, e, pos, pos', files, s.offset, t.offset);
  }

  /** The event half of the invariant after one step. */
  lemma EventLogStep(files: seq<FileEntry>, total: nat, chunks: seq<nat>, events: seq<Event>, pos: nat,
                     e: Event, pos': nat)
    requires EventLog(files, total, chunks, events, pos) && |events| < |chunks| && pos <= pos'
    requires e.fileIndex == pos && pos < |files| && e.fileName == files[pos].name
    requires e.advance <= chunks[|events|]
    requires e.advance == 0 <==> files[pos].size == 0
    requires e.sent == SumAdvances(events + [e]) && e.sent <= total
    requires 0 < total && e.phase == PhaseOf(e.sent, total)
    requires |events| > 0 ==> events[|events| - 1].sent <= e.sent
    ensures EventLog(files, total, chunks, events + [e], pos')
  {
    WellFormedAppend(files, total, chunks, events, e);
    MonotoneAppend(events, e);
  }

  lemma WellFormedAppend(files: seq<FileEntry>, total: nat, chunks: seq<nat>, events: seq<Event>, e: Event)
    requires WellFormedEvents(files, total, chunks, events) && |events| < |chunks|
    requires e.fileIndex < |files| && e.fileName == files[e.fileIndex].name
    requires e.advance <= chunks[|events|]
    requires e.advance == 0 <==> files[e.fileIndex].size == 0
    requires e.sent == SumAdvances(events + [e]) && e.sent <= total
    requires 0 < total && e.phase == PhaseOf(e.sent, total)
    ensures WellFormedEvents(files, total, chunks, events + [e])
  {
    var events' := events + [e];
    forall i | 0 <= i < |events'|
      ensures EventOk(files, total, chunks, events', i)
    {
      if i < |events| {
        assert EventOk(files, total, chunks, events, i);
        assert events'[..i + 1] == events[..i + 1];
      } else {
        assert events'[..i + 1] == events';
      }
    }
  }

  lemma MonotoneAppend(events: seq<Event>, e: Event)
    requires Monotone(events)
    requires |events| > 0 ==> events[|events| - 1].sent <= e.sent
    requires forall i :: 0 <= i < |events| ==> events[i].fileIndex <= e.fileIndex
    ensures Monotone(events + [e])
  {
  }

  /** The per-file byte counts after appending the event of one step. */
  lemma FileSentStep(events: seq<Event>, e: Event, pos: nat, pos': nat,
                     files: seq<FileEntry>, offset: nat, offset': nat)
    requires pos < |files| && e.fileIndex == pos
    requires FileCounts(files, events, pos, offset)
    requires pos' == pos ==> offset' == offset + e.advance
    requires pos' == pos + 1 ==> offset + e.advance == files[pos].size && offset' == 0
    requires pos' == pos || pos' == pos + 1
    ensures FileCounts(files, events + [e], pos', offset')
  {
    forall f | 0 <= f < |files|
      ensures FileSent(events + [e], f) == FileSent(events, f) + (if f == pos then e.advance else 0)
    {
      assert (events + [e])[..|events|] == events;
    }
  }

  /** The i-th event and the state after it are what `Step` gives for the state
      before it and the i-th draw. */
  predicate StepAt(files: seq<FileEntry>, total: nat, chunks: seq<nat>,
                   events: seq<Event>, trace: seq<SimState>, i: nat)
  {
    && i < |events| && i + 1 < |trace| && i < |chunks|
    && InFile(files, trace[i]) && trace[i].sent < total
    && Step(files, total, trace[i], chunks[i]) == (events[i], trace[i + 1])
  }

  /** `trace` holds the loop state before each step and after the last one: it
      starts at `Start`, and every step follows from the state before it by `Step`. */
  predicate Follows(files: seq<FileEntry>, total: nat, chunks: seq<nat>,
                    events: seq<Event>, trace: seq<SimState>)
  {
    && |trace| == |events| + 1
    && trace[0] == Start
    && forall i :: 0 <= i < |events| ==> StepAt(files, total, chunks, events, trace, i)
  }

  /** A run extended by one more `Step` is still a run. */
  lemma FollowsAppend(files: seq<FileEntry>, total: nat, chunks: seq<nat>,
                      events: seq<Event>, trace: seq<SimState>, e: Event, t: SimState)
    requires Follows(files, total, chunks, events, trace) && |events| < |chunks|
    requires InFile(files, trace[|events|]) && trace[|events|].sent < total
    requires Step(files, total, trace[|events|], chunks[|events|]) == (e, t)
    ensures Follows(files, total, chunks, events + [e], trace + [t])
  {
    forall i | 0 <= i < |events| + 1
      ensures StepAt(files, total, chunks, events + [e], trace + [t], i)
    {
      if i < |events| {
        assert StepAt(files, total, chunks, events, trace, i);
      }
    }
  }

  /** Two runs over the same listing and draws agree on their first `k` steps. */
  lemma {:induction false} PrefixAgree(files: seq<FileEntry>, total: nat, chunks: seq<nat>,
                                       e1: seq<Event>, t1: seq<SimState>,
                                       e2: seq<Event>, t2: seq<SimState>, k: nat)
    requires Follows(files, total, chunks, e1, t1) && Follows(files, total, chunks, e2, t2)
    requires k <= |e1| && k <= |e2|
    ensures forall i :: 0 <= i <= k ==> t1[i] == t2[i]
    ensures forall i :: 0 <= i < k ==> e1[i] == e2[i]
  {
    if k > 0 {
      PrefixAgree(files, total, chunks, e1, t1, e2, t2, k - 1);
      assert StepAt(files, total, chunks, e1, t1, k - 1);
      assert StepAt(files, total, chunks, e2, t2, k - 1);
    }
  }

  /** Every state a run steps from is still below the total. */
  lemma RunningBelowTotal(files: seq<FileEntry>, total: nat, chunks: seq<nat>,
                          events: seq<Event>, trace: seq<SimState>, k: nat)
    requires Follows(files, total, chunks, events, trace) && k < |events|
    ensures trace[k].sent < total
  {
    assert StepAt(files, total, chunks, events, trace, k);
  }

  /** The loop is deterministic: two runs over the same listing and draws that
      both stop with the counter at the total are the same run, step for step. */
  lemma RunUnique(files: seq<FileEntry>, total: nat, chunks: seq<nat>,
                  e1: seq<Event>, t1: seq<SimState>, e2: seq<Event>, t2: seq<SimState>)
    requires Follows(files, total, chunks, e1, t1) && t1[|e1|].sent == total
    requires Follows(files, total, chunks, e2, t2) && t2[|e2|].sent == total
    ensures e1 == e2 && t1 == t2
  {
    if |e1| < |e2| {
      PrefixAgree(files, total, chunks, e1, t1, e2, t2, |e1|);
      RunningBelowTotal(files, total, chunks, e2, t2, |e1|);
      assert false;
    } else if |e2| < |e1| {
      PrefixAgree(files, total, chunks, e1, t1, e2, t2, |e2|);
      RunningBelowTotal(files, total, chunks, e1, t1, |e2|);
      assert false;
    } else {
      PrefixAgree(files, total, chunks, e1, t1, e2, t2, |e1|);
    }
  }

  /** A two-file listing, 100000 and 50000 bytes, with every draw 40000: file `a`
      goes out as 40000, 40000 and a clamped 20000, then the run moves on to `b`
      and sends 40000 and a clamped 10000. Any run over these inputs is this one. */
  lemma TwoFileRun(events: seq<Event>, trace: seq<SimState>)
    requires Follows([FileEntry("a", 100000), FileEntry("b", 50000)], 150000,
                     [40000, 40000, 40000, 40000, 40000], events, trace)
    requires trace[|events|].sent == 150000
    ensures |events| == 5
    ensures events[0].advance == 40000 && events[1].advance == 40000 && events[2].advance == 20000
    ensures events[3].advance == 40000 && events[4].advance == 10000
    ensures events[0].fileIndex == 0 && events[2].fileIndex == 0 && events[3].fileIndex == 1 && events[4].fileIndex == 1
    ensures events[0].phase == Streaming && events[1].phase == Transmitting && events[2].phase == Transmitting
    ensures events[3].phase == Flushing && events[4].phase == Finalizing
    ensures trace[5] == SimState(150000, 0, 0)
  {
    var files := [FileEntry("a", 100000), FileEntry("b", 50000)];
    var total: nat := 150000;
    var chunks: seq<nat> := [40000, 40000, 40000, 40000, 40000];
    var run := [SimState(0, 0, 0), SimState(40000, 0, 40000), SimState(80000, 0, 80000),
                SimState(100000, 1, 0), SimState(140000, 1, 40000), SimState(150000, 0, 0)];
    var steps := [Event(40000, 40000, 0, "a", Streaming), Event(40000, 80000, 0, "a", Transmitting),
                  Event(20000, 100000, 0, "a", Transmitting), Event(40000, 140000, 1, "b", Flushing),
                  Event(10000, 150000, 1, "b", Finalizing)];
    assert StepAt(files, total, chunks, steps, run, 0);
    assert StepAt(files, total, chunks, steps, run, 1);
    assert StepAt(files, total, chunks, steps, run, 2);
    assert StepAt(files, total, chunks, steps, run, 3);
    assert StepAt(files, total, chunks, steps, run, 4);
    assert Follows(files, total, chunks, steps, run);
    RunUnique(files, total, chunks, events, trace, steps, run);
  }

  /** The statuses a run's steps give the progress task, in step order. */
  function StepStatuses(events: seq<Event>): seq<Status>
  {
    if |events| == 0 then []
    else StepStatuses(events[..|events| - 1]) + [Working(events[|events| - 1].phase, events[|events| - 1].fileName)]
  }

  lemma StepStatusesAppend(events: seq<Event>, e: Event)
    ensures StepStatuses(events + [e]) == StepStatuses(events) + [Working(e.phase, e.fileName)]
  {
    assert (events + [e])[..|events|] == events;
  }

  /** Everything the progress task describes, in order: the channel set-up,
      one status per step, and the completed transmission. */
  function Statuses(events: seq<Event>): seq<Status>
  {
    [Establishing] + StepStatuses(events) + [Completed]
  }

  /** The statuses start with the set-up, end with completion, and in between
      give the i-th step's phase and file, for every step. */
  lemma StatusesShape(events: seq<Event>)
    ensures |Statuses(events)| == |events| + 2
    ensures Statuses(events)[0] == Establishing && Statuses(events)[|events| + 1] == Completed
    ensures forall i :: 0 <= i < |events| ==> Statuses(events)[i + 1] == Working(events[i].phase, events[i].fileName)
  {
    StepStatusesShape(events);
  }

  lemma {:induction false} StepStatusesShape(events: seq<Event>)
    ensures |StepStatuses(events)| == |events|
    ensures forall i :: 0 <= i < |events| ==> StepStatuses(events)[i] == Working(events[i].phase, events[i].fileName)
  {
    if |events| > 0 {
      var init := events[..|events| - 1];
      StepStatusesShape(init);
      forall i | 0 <= i < |init|
        ensures init[i] == events[i]
      {
      }
    }
  }

  /** The simulated transmission of `files` (whose sizes sum to `total`), with
      `chunks[i]` the draw of the i-th step. Returns the step events, the final
      state and the statuses the progress task describes, in order (`Text` gives
      each one's description text). */
  method Simulate(files: seq<FileEntry>, total: nat, chunks: seq<nat>)
    returns (events: seq<Event>, trace: seq<SimState>, final: SimState, statuses: seq<Status>)
    requires total == SumSizes(files)
    requires forall i :: 0 <= i < |chunks| ==> MinChunk <= chunks[i] <= MaxChunk
    requires |chunks| >= total + |files|
    // termination, with a bound on the draws consumed
    ensures |events| <= total + |files|
    // the run is the loop itself: each event is `Step` on the state before it and its draw
    ensures Follows(files, total, chunks, events, trace) && trace[|events|] == final
    // conservation: exactly the total is sent, no overshoot, each file in full
    ensures final.sent == total && final.offset == 0
    ensures SumAdvances(events) == total
    ensures forall f :: 0 <= f < |files| ==> FileSent(events, f) == files[f].size
    ensures |events| > 0 ==> events[|events| - 1].sent == total
    // each step: clamped draw, from a file of the listing, counter advanced by it
    ensures WellFormedEvents(files, total, chunks, events)
    ensures forall i :: 0 <= i < |events| ==> events[i].advance <= MaxChunk
    // monotone sent counter, no wrap back to an earlier file, monotone phase
    ensures Monotone(events)
    ensures forall i, j :: 0 <= i <= j < |events| ==> events[i].phase.Rank() <= events[j].phase.Rank()
    ensures |events| > 0 ==> events[|events| - 1].phase == Finalizing
    // statuses shown: the set-up, one per step, the completion
    ensures statuses == Statuses(events)
  {
    ghost var pos: nat;
    events, trace, final, statuses, pos := RunLoop(files, total, chunks);
    RunFinished(files, total, chunks, events, final, pos);
    statuses := statuses + [Completed];
    assert statuses == Statuses(events);
  }

  /** The loop of the simulation: steps until the counter reaches the total.
      Returns the events, the states passed through, the final state, the
      statuses shown so far and the final unwrapped file position. */
  method RunLoop(files: seq<FileEntry>, total: nat, chunks: seq<nat>)
    returns (events: seq<Event>, trace: seq<SimState>, final: SimState, statuses: seq<Status>, ghost pos: nat)
    requires total == SumSizes(files)
    requires forall i :: 0 <= i < |chunks| ==> MinChunk <= chunks[i] <= MaxChunk
    requires |chunks| >= total + |files|
    ensures final.sent == total
    ensures Follows(files, total, chunks, events, trace) && trace[|events|] == final
    ensures RunSoFar(files, total, chunks, events, final, pos)
    ensures statuses == [Establishing] + StepStatuses(events)
  {
    final := Start;
    pos := 0;
    events := [];
    trace := [Start];
    statuses := [Establishing];
    RunStarts(files, total, chunks);
    while final.sent < total
      invariant Follows(files, total, chunks, events, trace) && trace[|events|] == final
      invariant RunSoFar(files, total, chunks, events, final, pos)
      invariant statuses == [Establishing] + StepStatuses(events)
      decreases total - final.sent, |files| - pos
    {
      RunStep(files, total, chunks, events, final, pos);
      var r := Step(files, total, final, chunks[|events|]);
      var e, next := r.0, r.1;
      pos := NextPos(files, final, pos, e.advance);
      StepStatusesAppend(events, e);
      FollowsAppend(files, total, chunks, events, trace, e, next);
      events := events + [e];
      trace := trace + [next];
      statuses := statuses + [Working(e.phase, e.fileName)];
      final := next;
    }
  }

  /** What the loop invariant gives once the counter has reached the total. */
  lemma RunFinished(files: seq<FileEntry>, total: nat, chunks: seq<nat>, events: seq<Event>, s: SimState, pos: nat)
    requires total == SumSizes(files)
    requires forall i :: 0 <= i < |chunks| ==> MinChunk <= chunks[i] <= MaxChunk
    requires RunSoFar(files, total, chunks, events, s, pos) && s.sent == total
    ensures |events| <= total + |files|
    ensures s.offset == 0
    ensures forall f :: 0 <= f < |files| ==> FileSent(events, f) == files[f].size
    ensures forall i :: 0 <= i < |events| ==> events[i].advance <= MaxChunk
    ensures forall i, j :: 0 <= i <= j < |events| ==> events[i].phase.Rank() <= events[j].phase.Rank()
    ensures |events| > 0 ==> events[|events| - 1].phase == Finalizing
  {
    FinishedRest(files, s, pos);
    forall i | 0 <= i < |events|
      ensures events[i].advance <= MaxChunk
    {
      assert EventOk(files, total, chunks, events, i);
    }
    forall i, j | 0 <= i <= j < |events|
      ensures events[i].phase.Rank() <= events[j].phase.Rank()
    {
      assert EventOk(files, total, chunks, events, i) && EventOk(files, total, chunks, events, j);
      PhaseMonotone(events[i].sent, events[j].sent, total);
    }
    if |events| > 0 {
      assert EventOk(files, total, chunks, events, |events| - 1);
    }
  }
}
