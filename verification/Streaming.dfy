/** The streaming checkpoint loop: buffer, flush (scores first, cursor second), crash, restart. Trades are
    numbered by their place in the Horizon stream. */
module Streaming {
  import opened Common

  /** `Now`: no position is recorded; `At(p)`: resuming delivers trade p next. */
  datatype Cursor = Now | At(next: nat)

  /** Batch size, flush interval, whether the streamer consults its idempotency store, and that store's replay
      window (not positive: no limit). */
  datatype Config = Config(batch: int, interval: real, dedup: bool, window: real)

  /** What survives a crash. `origin` is bookkeeping: where the process that first recorded a position began. */
  datatype Disk = Disk(cursor: Cursor, saved: set<nat>, seen: set<nat>, origin: Option<nat>)

  datatype Phase = Listening | Saving | Writing | Marking

  /** `stream` is the streamer's own cursor, `last` the one the loop would persist; `final` is the flush of
      the interrupt handler, after which the process ends. */
  datatype Process = Process(start: nat, next: nat, stream: Cursor, last: Cursor, buffer: seq<nat>, phase: Phase, final: bool)

  datatype System = System(disk: Disk, process: Option<Process>)

  /** `age` is the time since the trade's ledger closed; `rejected` a 404 or 410 answer to the cursor; `at` the
      head of the stream. `Mark` is the streamer going on after a yield; `Load` is the historical loader, a program
      of its own, marking a trade as seen. */
  datatype Step =
    | Start(at: nat)
    | Receive(hasId: bool, elapsed: real, age: real)
    | Reconnect(rejected: bool, at: nat)
    | Save
    | Write
    | Mark(at: nat)
    | Interrupt
    | Crash
    | Load(trade: nat)

  const Fresh := System(Disk(Now, {}, {}, None), None)

  predicate FlushDue(cfg: Config, buffered: nat, elapsed: real) { buffered >= cfg.batch || elapsed >= cfg.interval }

  function Advance(c: Cursor, hasId: bool, pos: nat): Cursor { if hasId then At(pos + 1) else c }

  /** Too old for the replay window, which is looked at first, or already seen. */
  predicate Skipped(cfg: Config, d: Disk, pos: nat, age: real) {
    cfg.dedup && ((cfg.window > 0.0 && age > cfg.window) || pos in d.seen)
  }

  /** The streamer's cursor moves on even when the trade is skipped. */
  function Receiving(cfg: Config, d: Disk, p: Process, hasId: bool, elapsed: real, age: real): Process {
    var stream := Advance(p.stream, hasId, p.next);
    if Skipped(cfg, d, p.next, age) then p.(next := p.next + 1, stream := stream)
    else p.(next := p.next + 1, stream := stream, last := stream, buffer := p.buffer + [p.next],
            phase := if FlushDue(cfg, |p.buffer| + 1, elapsed) then Saving else Marking)
  }

  /** Nothing has come in yet and no position is known. */
  predicate Untouched(p: Process) { p.next == p.start && p.last.Now? && p.buffer == [] }

  /** A dropped connection is resumed from the streamer's cursor; without one, or when it is rejected, from the
      head of the stream. */
  function Reconnecting(p: Process, rejected: bool, at: nat): Process {
    if p.stream.At? && !rejected then p.(next := p.stream.next)
    else if at < p.next then p
    else p.(next := at, stream := Now, start := if Untouched(p) then at else p.start)
  }

  /** With a store the streamer records its trade under no key at all, which the table refuses: nothing is marked,
      and the error is taken for a dropped connection. */
  function GoingOn(cfg: Config, p: Process, at: nat): Process {
    (if cfg.dedup then Reconnecting(p, false, at) else p).(phase := Listening)
  }

  function Persisting(d: Disk, p: Process): Disk {
    d.(cursor := p.last, origin := if p.last.At? && d.origin.None? then Some(p.start) else d.origin)
  }

  /** One step; a step that is not possible in the state changes nothing. Time does not run backwards. */
  function Apply(cfg: Config, s: System, step: Step): System {
    if step.Load? then
      if cfg.dedup then s.(disk := s.disk.(seen := s.disk.seen + {step.trade})) else s
    else if s.process.None? then
      match step
      case Start(at) =>
        if s.disk.cursor.At? && at != s.disk.cursor.next then s
        else s.(process := Some(Process(at, at, s.disk.cursor, s.disk.cursor, [], Listening, false)))
      case _ => s
    else
      var d, p := s.disk, s.process.value;
      match step
      case Start(_) | Load(_) => s
      case Receive(hasId, elapsed, age) =>
        if p.phase == Listening && elapsed >= 0.0 then s.(process := Some(Receiving(cfg, d, p, hasId, elapsed, age))) else s
      case Reconnect(rejected, at) =>
        if p.phase == Listening then s.(process := Some(Reconnecting(p, rejected, at))) else s
      case Save =>
        if p.phase == Saving then
          System(d.(saved := d.saved + set t | t in p.buffer), Some(p.(phase := Writing)))
        else s
      case Write =>
        if p.phase == Writing then
          System(Persisting(d, p), if p.final then None else Some(p.(buffer := [], phase := Marking)))
        else s
      case Mark(at) =>
        if p.phase == Marking then s.(process := Some(GoingOn(cfg, p, at))) else s
      case Interrupt =>
        if p.final then s
        else s.(process := if p.buffer == [] then None else Some(p.(phase := Saving, final := true)))
      case Crash => s.(process := None)
  }

  function Run(cfg: Config, steps: seq<Step>): System {
    if steps == [] then Fresh else Apply(cfg, Run(cfg, steps[..|steps| - 1]), steps[|steps| - 1])
  }

  /** At least once: every trade from the origin up to the persisted cursor is in a batch whose scores were saved. */
  ghost predicate Covered(d: Disk) {
    d.cursor.At? ==> d.origin.Some? && forall t: nat :: d.origin.value <= t < d.cursor.next ==> t in d.saved
  }

  /** The reconnection does not throw the stream position away: the cursor is not rejected, and without a cursor
      no trade has gone by. */
  predicate HoldsPlace(p: Process, rejected: bool, at: nat) {
    if p.stream.At? then !rejected else at <= p.next || Untouched(p)
  }

  predicate KeepsPlace(cfg: Config, s: System, step: Step) {
    s.process.Some? ==>
      match step
      case Reconnect(rejected, at) => s.process.value.phase == Listening ==> HoldsPlace(s.process.value, rejected, at)
      case Mark(at) => s.process.value.phase == Marking && cfg.dedup ==> HoldsPlace(s.process.value, false, at)
      case _ => true
  }

  ghost predicate PlaceKept(cfg: Config, steps: seq<Step>) {
    forall i :: 0 <= i < |steps| ==> KeepsPlace(cfg, Run(cfg, steps[..i]), steps[i])
  }

  /** The loader only marks trades before the persisted cursor. */
  predicate LoadsBehind(d: Disk, step: Step) { step.Load? ==> d.cursor.At? && step.trade < d.cursor.next }

  ghost predicate AllLoadsBehind(cfg: Config, steps: seq<Step>) {
    forall i :: 0 <= i < |steps| ==> LoadsBehind(Run(cfg, steps[..i]).disk, steps[i])
  }

  predicate NoLoads(steps: seq<Step>) { forall i :: 0 <= i < |steps| ==> !steps[i].Load? }

  /** No trade is ever too old. */
  predicate NoWindow(cfg: Config) { !cfg.dedup || cfg.window <= 0.0 }

  /** The trade is not older than the replay window. */
  predicate InWindow(cfg: Config, step: Step) {
    step.Receive? && cfg.dedup && cfg.window > 0.0 ==> step.age <= cfg.window
  }

  ghost predicate ProcessOk(d: Disk, p: Process) {
    && p.start <= p.next
    && (p.stream.At? ==> p.start <= p.stream.next <= p.next)
    && (p.last.At? ==> p.stream.At? && p.start <= p.last.next <= p.stream.next)
    && (p.last.Now? ==> d.cursor.Now?)
    && (d.origin.Some? ==> d.origin.value <= p.start)
    && (d.origin.Some? ==> forall t: nat :: d.origin.value <= t < p.start ==> t in d.saved)
    && (forall t: nat :: p.start <= t < p.next ==> t in d.saved || t in p.buffer)
    && (p.phase == Writing ==> forall t :: t in p.buffer ==> t in d.saved)
    && (p.phase != Listening && !p.final ==> p.next > p.start)
    && (p.final ==> p.phase == Saving || p.phase == Writing)
  }

  predicate SavedOrBefore(d: Disk, t: nat) { t in d.saved || (d.origin.Some? && t < d.origin.value) }

  ghost predicate Ok(cfg: Config, s: System) {
    && Covered(s.disk) && (s.disk.origin.Some? <==> s.disk.cursor.At?)
    && (s.disk.cursor.At? ==> s.disk.origin.value <= s.disk.cursor.next)
    && (cfg.dedup ==> forall t :: t in s.disk.seen ==> SavedOrBefore(s.disk, t))
    && (s.process.Some? ==> ProcessOk(s.disk, s.process.value))
  }

  lemma ReceiveKeepsOk(cfg: Config, s: System, hasId: bool, elapsed: real, age: real)
    requires InWindow(cfg, Receive(hasId, elapsed, age)) && Ok(cfg, s) && s.process.Some? && s.process.value.phase == Listening && elapsed >= 0.0
    ensures Ok(cfg, Apply(cfg, s, Receive(hasId, elapsed, age)))
  {
  }

  lemma StepKeepsOk(cfg: Config, s: System, step: Step)
    requires InWindow(cfg, step) && Ok(cfg, s) && KeepsPlace(cfg, s, step)
    requires cfg.dedup ==> LoadsBehind(s.disk, step)
    ensures Ok(cfg, Apply(cfg, s, step))
  {
    if s.process.Some? {
      var p, s' := s.process.value, Apply(cfg, s, step);
      if step.Receive? && p.phase == Listening && step.elapsed >= 0.0 {
        ReceiveKeepsOk(cfg, s, step.hasId, step.elapsed, step.age);
      }
      if step.Save? && p.phase == Saving {
        forall t | t in p.buffer ensures t in s'.disk.saved {}
      }
    }
  }

  /** No run without a trade older than the window, and without loads ahead of the cursor, loses a trade. */
  lemma {:induction false} SafeRuns(cfg: Config, steps: seq<Step>)
    requires PlaceKept(cfg, steps) && (forall i :: 0 <= i < |steps| ==> InWindow(cfg, steps[i])) && (cfg.dedup ==> AllLoadsBehind(cfg, steps))
    ensures Ok(cfg, Run(cfg, steps))
  {
    if steps != [] {
      var n := |steps| - 1;
      forall i | 0 <= i < n
        ensures KeepsPlace(cfg, Run(cfg, steps[..n][..i]), steps[..n][i])
        ensures cfg.dedup ==> LoadsBehind(Run(cfg, steps[..n][..i]).disk, steps[..n][i])
      {
        assert steps[..n][..i] == steps[..i];
        assert KeepsPlace(cfg, Run(cfg, steps[..i]), steps[i]);
      }
      SafeRuns(cfg, steps[..n]);
      assert KeepsPlace(cfg, Run(cfg, steps[..n]), steps[n]);
      StepKeepsOk(cfg, Run(cfg, steps[..n]), steps[n]);
    }
  }

  /** Whatever the setting, the streamer never recognises a trade it has yielded before: only the loader's marks
      are ever in the table. */
  lemma {:induction false} OnlyLoadsAreSeen(cfg: Config, steps: seq<Step>, t: nat)
    requires t in Run(cfg, steps).disk.seen
    ensures Load(t) in steps
  {
    if steps != [] {
      var n := |steps| - 1;
      if t in Run(cfg, steps[..n]).disk.seen { OnlyLoadsAreSeen(cfg, steps[..n], t); }
    }
  }

  /** A trade that came without an id is delivered again after a reconnection, wherever the cursor was left. */
  lemma UnnumberedComesAgain(cfg: Config, s: System, t: nat, elapsed: real, age: real, at: nat)
    requires s.process.Some? && s.process.value.phase == Listening && elapsed >= 0.0
    requires s.process.value.stream == At(t) && s.process.value.next == t && !Skipped(cfg, s.disk, t, age)
    requires !FlushDue(cfg, |s.process.value.buffer| + 1, elapsed)
    ensures var again := Apply(cfg, Apply(cfg, Apply(cfg, s, Receive(false, elapsed, age)), Mark(at)), Reconnect(false, at));
      && again.process.Some? && again.process.value.next == t
      && again.process.value.buffer == s.process.value.buffer + [t]
  {}

  /** A skipped trade does not come again; one that was yielded leaves the buffer by a flush only. */
  lemma SkippedIsPassed(cfg: Config, s: System, elapsed: real, age: real, at: nat)
    requires s.process.Some? && s.process.value.phase == Listening && elapsed >= 0.0
    requires Skipped(cfg, s.disk, s.process.value.next, age)
    ensures var after := Apply(cfg, Apply(cfg, s, Receive(true, elapsed, age)), Reconnect(false, at));
      && after.disk == s.disk && after.process.Some? && after.process.value.next == s.process.value.next + 1
      && after.process.value.buffer == s.process.value.buffer && after.process.value.last == s.process.value.last
  {}

  /** An interrupt flushes what is buffered and then ends the process. */
  lemma InterruptFlushes(cfg: Config, s: System)
    requires s.process.Some? && !s.process.value.final
    ensures var p := s.process.value; var after := Apply(cfg, Apply(cfg, Apply(cfg, s, Interrupt), Save), Write);
      && after.process == None
      && (if p.buffer == [] then after.disk == s.disk
          else after.disk.saved == s.disk.saved + (set t | t in p.buffer) && after.disk.cursor == p.last)
  {}

  /** No batch ever exceeds the size limit. */
  ghost predicate BufferFits(cfg: Config, s: System) {
    s.process.Some? ==>
      && |s.process.value.buffer| <= cfg.batch
      && (s.process.value.phase == Listening || s.process.value.phase == Marking ==> |s.process.value.buffer| < cfg.batch)
  }

  lemma {:induction false} BuffersFit(cfg: Config, steps: seq<Step>)
    requires cfg.batch >= 1
    ensures BufferFits(cfg, Run(cfg, steps))
  {
    if steps != [] { BuffersFit(cfg, steps[..|steps| - 1]); }
  }

  // ----- runs that lose a trade -----

  lemma RunSnoc(cfg: Config, steps: seq<Step>, step: Step)
    ensures Run(cfg, steps + [step]) == Apply(cfg, Run(cfg, steps), step)
  {
    assert (steps + [step])[..|steps|] == steps;
  }

  lemma {:induction false} RunPrefix(cfg: Config, steps: seq<Step>, n: nat)
    requires n < |steps|
    ensures Run(cfg, steps[..n + 1]) == Apply(cfg, Run(cfg, steps[..n]), steps[n])
  {
    assert steps[..n + 1] == steps[..n] + [steps[n]];
    RunSnoc(cfg, steps[..n], steps[n]);
  }

  /** Long enough a silence to flush at any batch size. */
  function Silence(cfg: Config): real { if cfg.interval > 0.0 then cfg.interval else 0.0 }

  /** Trade 0 is received and flushed; the streamer is then about to go on. */
  function Opening(cfg: Config): seq<Step> { [Start(0), Receive(true, Silence(cfg), 0.0), Save, Write] }

  const Flushed := System(Disk(At(1), {0}, {}, Some(0)), Some(Process(0, 1, At(1), At(1), [], Marking, false)))

  lemma OpeningFlushes(cfg: Config)
    ensures Run(cfg, Opening(cfg)) == Flushed
  {
    var r := Opening(cfg);
    var empty: set<nat>, none: seq<nat> := {}, [];
    assert empty + (set t | t in [0]) == {0} && none + [0] == [0];
    RunPrefix(cfg, r, 0); RunPrefix(cfg, r, 1); RunPrefix(cfg, r, 2); RunPrefix(cfg, r, 3);
    assert r[..0] == [] && r[..4] == r;
  }

  /** The loader marks trade 1 before the streamer reaches it; the streamer skips it while its cursor moves past. */
  function LoadedAhead(cfg: Config): seq<Step> {
    Opening(cfg) + [Load(1), Mark(1), Receive(true, 0.0, 0.0), Receive(true, Silence(cfg), 0.0), Save, Write]
  }

  /** The process is down for longer than the replay window; after the restart trade 1 is refused as too old
      while the cursor moves past it. */
  function Outage(cfg: Config): seq<Step> {
    Opening(cfg) + [Crash, Start(1), Receive(true, 0.0, cfg.window + 1.0), Receive(true, Silence(cfg), 0.0), Save, Write]
  }

  /** The server no longer accepts the cursor; the streamer goes on from the head of the stream, past trade 1. */
  function Rejection(cfg: Config): seq<Step> {
    Opening(cfg) + [Mark(1), Reconnect(true, 2), Receive(true, Silence(cfg), 0.0), Save, Write]
  }

  /** Trade 1 is behind the streamer and in no batch. */
  ghost predicate PastTrade1(s: System) {
    && s.process.Some? && s.disk.saved == {0} && s.disk.origin == Some(0) && 2 !in s.disk.seen
    && var p := s.process.value;
      p.next == 2 && p.buffer == [] && p.phase == Listening && !p.final
  }

  /** Flushing trade 2 then moves the persisted cursor past trade 1. */
  lemma NextFlushLoses(cfg: Config, s: System)
    requires PastTrade1(s)
    ensures !Covered(Apply(cfg, Apply(cfg, Apply(cfg, s, Receive(true, Silence(cfg), 0.0)), Save), Write).disk)
  {
    var none: seq<nat> := [];
    assert none + [2] == [2];
    var d := Apply(cfg, Apply(cfg, Apply(cfg, s, Receive(true, Silence(cfg), 0.0)), Save), Write).disk;
    assert d.cursor == At(3) && d.origin == Some(0) && 1 !in d.saved;
  }

  lemma LoadedAheadLoses(cfg: Config)
    requires cfg.dedup
    ensures PlaceKept(cfg, LoadedAhead(cfg)) && !Covered(Run(cfg, LoadedAhead(cfg)).disk)
  {
    var r := LoadedAhead(cfg);
    OpeningFlushes(cfg);
    assert r[..4] == Opening(cfg);
    RunPrefix(cfg, r, 4); RunPrefix(cfg, r, 5); RunPrefix(cfg, r, 6); RunPrefix(cfg, r, 7); RunPrefix(cfg, r, 8);
    RunPrefix(cfg, r, 9);
    NextFlushLoses(cfg, Run(cfg, r[..7]));
    assert r[..10] == r;
    forall i | 0 <= i < |r| ensures KeepsPlace(cfg, Run(cfg, r[..i]), r[i]) {
      if i == 5 { assert Run(cfg, r[..5]).process == Flushed.process; }
    }
  }

  predicate Plain(steps: seq<Step>) {
    forall i :: 0 <= i < |steps| ==> !steps[i].Reconnect? && !steps[i].Mark? && !steps[i].Load?
  }

  lemma PlainKeepsPlace(cfg: Config, steps: seq<Step>)
    requires Plain(steps)
    ensures PlaceKept(cfg, steps) && NoLoads(steps) && AllLoadsBehind(cfg, steps)
  {
  }

  lemma OutageIsPlain(cfg: Config)
    ensures Plain(Outage(cfg))
  {
    assert Plain(Opening(cfg));
  }

  lemma OutageLoses(cfg: Config)
    requires cfg.dedup && cfg.window > 0.0
    ensures Plain(Outage(cfg)) && !Covered(Run(cfg, Outage(cfg)).disk)
  {
    var r := Outage(cfg);
    OpeningFlushes(cfg);
    assert r[..4] == Opening(cfg);
    RunPrefix(cfg, r, 4); RunPrefix(cfg, r, 5); RunPrefix(cfg, r, 6); RunPrefix(cfg, r, 7); RunPrefix(cfg, r, 8);
    RunPrefix(cfg, r, 9);
    NextFlushLoses(cfg, Run(cfg, r[..7]));
    assert r[..10] == r;
    OutageIsPlain(cfg);
  }

  lemma RejectionSkips(cfg: Config)
    ensures PastTrade1(Run(cfg, Rejection(cfg)[..6]))
  {
    var r := Rejection(cfg);
    OpeningFlushes(cfg);
    assert r[..4] == Opening(cfg);
    RunPrefix(cfg, r, 4); RunPrefix(cfg, r, 5);
  }

  /** No setting protects a run in which the server rejects the cursor. */
  lemma RejectionLoses(cfg: Config)
    ensures !Covered(Run(cfg, Rejection(cfg)).disk)
  {
    var r := Rejection(cfg);
    RejectionSkips(cfg);
    RunPrefix(cfg, r, 6); RunPrefix(cfg, r, 7); RunPrefix(cfg, r, 8);
    NextFlushLoses(cfg, Run(cfg, r[..6]));
    assert r[..9] == r;
  }

  /** Trade 0 comes without an id; the connection then drops before the streamer has any cursor. */
  function Cursorless(cfg: Config): seq<Step> {
    [Start(0), Receive(false, Silence(cfg), 0.0), Save, Write, Mark(1), Reconnect(false, 2),
     Receive(true, Silence(cfg), 0.0), Save, Write]
  }

  lemma CursorlessFlushes(cfg: Config)
    ensures Run(cfg, Cursorless(cfg)[..4]) ==
      System(Disk(Now, {0}, {}, None), Some(Process(0, 1, Now, Now, [], Marking, false)))
  {
    var r := Cursorless(cfg);
    var empty: set<nat>, none: seq<nat> := {}, [];
    assert empty + (set t | t in [0]) == {0} && none + [0] == [0];
    RunPrefix(cfg, r, 0); RunPrefix(cfg, r, 1); RunPrefix(cfg, r, 2); RunPrefix(cfg, r, 3);
    assert r[..0] == [];
  }

  lemma CursorlessSkips(cfg: Config)
    ensures Run(cfg, Cursorless(cfg)[..6]) ==
      System(Disk(Now, {0}, {}, None), Some(Process(0, 2, Now, Now, [], Listening, false)))
  {
    CursorlessFlushes(cfg);
    RunPrefix(cfg, Cursorless(cfg), 4); RunPrefix(cfg, Cursorless(cfg), 5);
  }

  /** Nor one in which the connection drops before a cursor is known. */
  lemma CursorlessLoses(cfg: Config)
    ensures !Covered(Run(cfg, Cursorless(cfg)).disk)
  {
    var r := Cursorless(cfg);
    var none: seq<nat> := [];
    assert none + [2] == [2];
    CursorlessSkips(cfg);
    RunPrefix(cfg, r, 6); RunPrefix(cfg, r, 7); RunPrefix(cfg, r, 8);
    assert r[..9] == r;
    var d := Run(cfg, r).disk;
    assert d.cursor == At(3) && d.origin == Some(0) && 1 !in d.saved;
  }

  /** On the runs whose reconnections keep their place, with the loader free to run beside it, the streaming loop
      is at-least-once exactly without de-duplication. */
  lemma AtLeastOnceIff(cfg: Config)
    ensures (forall steps :: PlaceKept(cfg, steps) ==> Covered(Run(cfg, steps).disk)) <==> !cfg.dedup
  {
    if cfg.dedup {
      LoadedAheadLoses(cfg);
    } else {
      forall steps | PlaceKept(cfg, steps) ensures Covered(Run(cfg, steps).disk) { SafeRuns(cfg, steps); }
    }
  }

  /** If the loader never overtakes the streamer, or does not run at all, it is so exactly without de-duplication
      or without a replay window. */
  lemma AtLeastOnceAloneIff(cfg: Config)
    ensures (forall steps :: PlaceKept(cfg, steps) && NoLoads(steps) ==> Covered(Run(cfg, steps).disk)) <==> NoWindow(cfg)
    ensures (forall steps :: PlaceKept(cfg, steps) && AllLoadsBehind(cfg, steps) ==> Covered(Run(cfg, steps).disk)) <==>
      NoWindow(cfg)
  {
    if NoWindow(cfg) {
      forall steps | PlaceKept(cfg, steps) && (NoLoads(steps) || AllLoadsBehind(cfg, steps))
        ensures Covered(Run(cfg, steps).disk)
      {
        SafeRuns(cfg, steps);
      }
    } else {
      OutageLoses(cfg);
      PlainKeepsPlace(cfg, Outage(cfg));
    }
  }

  // ----- the loop itself, on the events one process is given -----

  /** A yielded trade, the event's cursor if it has one, and the clock reading after it arrived. */
  datatype Event = Event(trade: nat, cursor: Option<Cursor>, now: real)

  class Store {
    /** The batches whose scores were saved, and the cursor file. */
    var batches: seq<seq<nat>>
    var cursor: Cursor
    constructor (cursor: Cursor)
      ensures batches == [] && this.cursor == cursor
    { batches, this.cursor := [], cursor; }
  }

  function Flatten(bs: seq<seq<nat>>): seq<nat> {
    if bs == [] then [] else Flatten(bs[..|bs| - 1]) + bs[|bs| - 1]
  }

  function Trades(events: seq<Event>): (r: seq<nat>)
    ensures |r| == |events|
  { seq(|events|, i requires 0 <= i < |events| => events[i].trade) }

  function LastCursor(c: Cursor, events: seq<Event>): Cursor {
    if events == [] then c
    else
      var e := events[|events| - 1];
      if e.cursor.Some? then e.cursor.value else LastCursor(c, events[..|events| - 1])
  }

  /** The batches made, then the buffer, are the trades received; the cursor on file is the one reached at the
      end of the last batch. */
  ghost predicate Accounted(c0: Cursor, received: seq<Event>, made: seq<seq<nat>>, buffer: seq<nat>, cursor: Cursor) {
    && Flatten(made) + buffer == Trades(received)
    && |Flatten(made)| <= |received|
    && cursor == if made == [] then c0 else LastCursor(c0, received[..|Flatten(made)|])
  }

  lemma AccountedReceive(c0: Cursor, received: seq<Event>, made: seq<seq<nat>>, buffer: seq<nat>, cursor: Cursor, e: Event)
    requires Accounted(c0, received, made, buffer, cursor)
    ensures Accounted(c0, received + [e], made, buffer + [e.trade], cursor)
    ensures LastCursor(c0, received + [e]) == if e.cursor.Some? then e.cursor.value else LastCursor(c0, received)
  {
    assert (received + [e])[..|received|] == received;
    assert (received + [e])[..|Flatten(made)|] == received[..|Flatten(made)|];
    assert Trades(received + [e]) == Trades(received) + [e.trade];
  }

  lemma AccountedFlush(c0: Cursor, received: seq<Event>, made: seq<seq<nat>>, buffer: seq<nat>, cursor: Cursor)
    requires Accounted(c0, received, made, buffer, cursor)
    ensures Accounted(c0, received, made + [buffer], [], LastCursor(c0, received))
  {
    assert (made + [buffer])[..|made|] == made;
    assert received[..|received|] == received;
  }

  method FlushStreamingBuffer(store: Store, buffer: seq<nat>, cursor: Cursor)
    modifies store
    ensures store.batches == if buffer == [] then old(store.batches) else old(store.batches) + [buffer]
    ensures store.cursor == if buffer == [] then old(store.cursor) else cursor
  {
    if buffer == [] {
      return;
    }
    store.batches := store.batches + [buffer];
    store.cursor := cursor;
  }

  /** Non-empty batches within the size limit. */
  predicate BatchesFit(cfg: Config, made: seq<seq<nat>>) {
    forall b :: b in made ==> b != [] && (cfg.batch >= 1 ==> |b| <= cfg.batch)
  }

  /** What the loop keeps. */
  ghost predicate OnTrack(cfg: Config, c0: Cursor, received: seq<Event>, made: seq<seq<nat>>, buffer: seq<nat>,
                          cursor: Cursor) {
    Accounted(c0, received, made, buffer, cursor) && BatchesFit(cfg, made)
  }

  lemma FlushStaysOnTrack(cfg: Config, c0: Cursor, received: seq<Event>, made: seq<seq<nat>>, buffer: seq<nat>,
                          cursor: Cursor)
    requires OnTrack(cfg, c0, received, made, buffer, cursor)
    requires buffer != [] && (cfg.batch >= 1 ==> |buffer| <= cfg.batch)
    ensures OnTrack(cfg, c0, received, made + [buffer], [], LastCursor(c0, received))
  {
    AccountedFlush(c0, received, made, buffer, cursor);
  }

  lemma ReceiveStaysOnTrack(cfg: Config, c0: Cursor, received: seq<Event>, made: seq<seq<nat>>, buffer: seq<nat>,
                            cursor: Cursor, e: Event)
    requires OnTrack(cfg, c0, received, made, buffer, cursor)
    ensures OnTrack(cfg, c0, received + [e], made, buffer + [e.trade], cursor)
    ensures LastCursor(c0, received + [e]) == if e.cursor.Some? then e.cursor.value else LastCursor(c0, received)
  {
    AccountedReceive(c0, received, made, buffer, cursor, e);
  }

  // ----- when batches are cut -----

  /** The number of trades before batch k. */
  function Offset(made: seq<seq<nat>>, k: nat): (n: nat)
    requires k <= |made|
    ensures k == |made| ==> n == |Flatten(made)|
  {
    assert made[..|made|] == made;
    |Flatten(made[..k])|
  }

  /** The clock at the flush before batch k: at its last trade, or at the start. */
  function FlushedAt(t0: real, events: seq<Event>, made: seq<seq<nat>>, k: nat): real
    requires k <= |made| && Offset(made, k) <= |events|
  { if Offset(made, k) == 0 then t0 else events[Offset(made, k) - 1].now }

  /** m trades after that flush the batch is full or the interval has passed. */
  predicate FullOrLate(cfg: Config, t0: real, events: seq<Event>, made: seq<seq<nat>>, k: nat, m: nat)
    requires k <= |made| && m > 0 && Offset(made, k) + m <= |events|
  {
    m >= cfg.batch || events[Offset(made, k) + m - 1].now - FlushedAt(t0, events, made, k) >= cfg.interval
  }

  /** Batch k is not empty and ends at the first trade at which it is full or late. */
  ghost predicate CutAtFirst(cfg: Config, t0: real, events: seq<Event>, made: seq<seq<nat>>, k: nat)
    requires k < |made|
  {
    && made[k] != [] && Offset(made, k) + |made[k]| <= |events|
    && forall m: nat :: 0 < m <= |made[k]| ==> (FullOrLate(cfg, t0, events, made, k, m) <==> m == |made[k]|)
  }

  /** The batches and the buffer cover the first n events, every batch ends at its first due trade, and none in the
      buffer is due yet. */
  ghost predicate CutRight(cfg: Config, t0: real, events: seq<Event>, n: nat, made: seq<seq<nat>>, buffer: seq<nat>) {
    && n <= |events| && |Flatten(made)| + |buffer| == n
    && (forall k: nat :: k < |made| ==> CutAtFirst(cfg, t0, events, made, k))
    && NoneDue(cfg, t0, events, made, |buffer|)
  }

  ghost predicate NoneDue(cfg: Config, t0: real, events: seq<Event>, made: seq<seq<nat>>, size: nat) {
    && Offset(made, |made|) + size <= |events|
    && forall m: nat :: 0 < m <= size ==> !FullOrLate(cfg, t0, events, made, |made|, m)
  }

  lemma FlattenSnoc(made: seq<seq<nat>>, b: seq<nat>)
    ensures Flatten(made + [b]) == Flatten(made) + b
  {
    assert (made + [b])[..|made|] == made;
  }

  lemma SameDue(cfg: Config, t0: real, events: seq<Event>, made: seq<seq<nat>>, b: seq<nat>, k: nat, m: nat)
    requires k <= |made| && m > 0 && Offset(made, k) + m <= |events|
    ensures Offset(made + [b], k) == Offset(made, k)
    ensures FullOrLate(cfg, t0, events, made + [b], k, m) <==> FullOrLate(cfg, t0, events, made, k, m)
  {
    assert (made + [b])[..k] == made[..k];
  }

  /** Batches made earlier stay cut as they were. */
  lemma CutStays(cfg: Config, t0: real, events: seq<Event>, made: seq<seq<nat>>, b: seq<nat>, k: nat)
    requires k < |made| && CutAtFirst(cfg, t0, events, made, k)
    ensures CutAtFirst(cfg, t0, events, made + [b], k)
  {
    SameDue(cfg, t0, events, made, b, k, |made[k]|);
    forall m: nat | 0 < m <= |made[k]|
      ensures FullOrLate(cfg, t0, events, made + [b], k, m) <==> FullOrLate(cfg, t0, events, made, k, m)
    {
      SameDue(cfg, t0, events, made, b, k, m);
    }
  }

  lemma BufferGrows(cfg: Config, t0: real, events: seq<Event>, n: nat, made: seq<seq<nat>>, buffer: seq<nat>, t: nat)
    requires CutRight(cfg, t0, events, n, made, buffer) && n < |events|
    requires !FullOrLate(cfg, t0, events, made, |made|, |buffer| + 1)
    ensures CutRight(cfg, t0, events, n + 1, made, buffer + [t])
  {}

  lemma BatchIsCut(cfg: Config, t0: real, events: seq<Event>, n: nat, made: seq<seq<nat>>, buffer: seq<nat>, t: nat)
    requires CutRight(cfg, t0, events, n, made, buffer) && n < |events|
    requires FullOrLate(cfg, t0, events, made, |made|, |buffer| + 1)
    ensures CutRight(cfg, t0, events, n + 1, made + [buffer + [t]], [])
    ensures FlushedAt(t0, events, made + [buffer + [t]], |made| + 1) == events[n].now
  {
    var b := buffer + [t];
    var more := made + [b];
    FlattenSnoc(made, b);
    assert more[..|made|] == made && more[..|more|] == more;
    forall k: nat | k < |more| ensures CutAtFirst(cfg, t0, events, more, k) {
      if k < |made| { CutStays(cfg, t0, events, made, b, k); } else { LastIsCut(cfg, t0, events, made, b); }
    }
  }

  lemma LastIsCut(cfg: Config, t0: real, events: seq<Event>, made: seq<seq<nat>>, b: seq<nat>)
    requires b != [] && NoneDue(cfg, t0, events, made, |b| - 1) && |Flatten(made)| + |b| <= |events|
    requires FullOrLate(cfg, t0, events, made, |made|, |b|)
    ensures CutAtFirst(cfg, t0, events, made + [b], |made|)
  {
    SameDue(cfg, t0, events, made, b, |made|, |b|);
    forall m: nat | 0 < m <= |b|
      ensures FullOrLate(cfg, t0, events, made + [b], |made|, m) <==> m == |b|
    {
      SameDue(cfg, t0, events, made, b, |made|, m);
    }
  }

  /** The events decide the batches: there is one way to cut them. */
  lemma {:induction false} CutIsUnique(cfg: Config, t0: real, events: seq<Event>, made: seq<seq<nat>>, left: seq<nat>,
                                       other: seq<seq<nat>>, rest: seq<nat>, k: nat)
    requires CutRight(cfg, t0, events, |events|, made, left) && CutRight(cfg, t0, events, |events|, other, rest)
    requires Flatten(made) + left == Trades(events) == Flatten(other) + rest
    requires k <= |made| && k <= |other| && made[..k] == other[..k]
    ensures made == other && left == rest
    decreases |made| - k
  {
    if k < |made| && k < |other| {
      SameBatch(cfg, t0, events, made, other, k);
      BatchAt(made, left, k);
      BatchAt(other, rest, k);
      assert made[..k + 1] == made[..k] + [made[k]] && other[..k + 1] == other[..k] + [other[k]];
      CutIsUnique(cfg, t0, events, made, left, other, rest, k + 1);
    } else if k < |made| {
      NotBuffered(cfg, t0, events, made, left, other, rest, k);
    } else if k < |other| {
      NotBuffered(cfg, t0, events, other, rest, made, left, k);
    } else {
      assert made == made[..k] && other == other[..k];
      assert left == Trades(events)[|Flatten(made)|..] && rest == Trades(events)[|Flatten(other)|..];
    }
  }

  lemma SameBatch(cfg: Config, t0: real, events: seq<Event>, made: seq<seq<nat>>, other: seq<seq<nat>>, k: nat)
    requires k < |made| && k < |other| && made[..k] == other[..k]
    requires CutAtFirst(cfg, t0, events, made, k) && CutAtFirst(cfg, t0, events, other, k)
    ensures |made[k]| == |other[k]|
  {
    var a, b := |made[k]|, |other[k]|;
    if a < b {
      assert FullOrLate(cfg, t0, events, made, k, a) && FullOrLate(cfg, t0, events, other, k, a);
    } else if b < a {
      assert FullOrLate(cfg, t0, events, other, k, b) && FullOrLate(cfg, t0, events, made, k, b);
    }
  }

  lemma {:induction false} BatchAt(made: seq<seq<nat>>, left: seq<nat>, k: nat)
    requires k < |made|
    ensures Offset(made, k) + |made[k]| <= |Flatten(made) + left|
    ensures (Flatten(made) + left)[Offset(made, k)..Offset(made, k) + |made[k]|] == made[k]
    decreases |made|
  {
    var n := |made| - 1;
    assert made[..n][..k] == made[..k] || k == n;
    if k < n {
      BatchAt(made[..n], made[n] + left, k);
      assert Flatten(made[..n]) + (made[n] + left) == Flatten(made) + left;
    }
  }

  /** What one run has flushed as its next batch the other cannot still hold in its buffer. */
  lemma NotBuffered(cfg: Config, t0: real, events: seq<Event>, made: seq<seq<nat>>, left: seq<nat>,
                    other: seq<seq<nat>>, rest: seq<nat>, k: nat)
    requires CutRight(cfg, t0, events, |events|, made, left) && |Flatten(other)| + |rest| == |events|
    requires k == |other| < |made| && made[..k] == other
    ensures !NoneDue(cfg, t0, events, other, |rest|)
  {
    var m := |made[k]|;
    assert CutAtFirst(cfg, t0, events, made, k);
    assert other[..k] == other;
    assert FullOrLate(cfg, t0, events, made, k, m);
    BatchAt(made, left, k);
    assert FullOrLate(cfg, t0, events, other, k, m);
  }

  // ----- the loop -----

  lemma NextEvent(cfg: Config, c0: Cursor, events: seq<Event>, i: nat, made: seq<seq<nat>>, buffer: seq<nat>, cursor: Cursor)
    requires i < |events| && OnTrack(cfg, c0, events[..i], made, buffer, cursor)
    ensures var e := events[i];
      && OnTrack(cfg, c0, events[..i + 1], made, buffer + [e.trade], cursor)
      && LastCursor(c0, events[..i + 1]) == if e.cursor.Some? then e.cursor.value else LastCursor(c0, events[..i])
  {
    ReceiveStaysOnTrack(cfg, c0, events[..i], made, buffer, cursor, events[i]);
    assert events[..i + 1] == events[..i] + [events[i]];
  }

  lemma Reassociate<T>(a: seq<T>, b: seq<T>, c: seq<T>)
    ensures (a + b) + c == a + (b + c)
  {}

  /** What the loop keeps after n events. */
  ghost predicate Tracked(cfg: Config, c0: Cursor, t0: real, events: seq<Event>, n: nat, made: seq<seq<nat>>,
                          buffer: seq<nat>, cursor: Cursor) {
    && n <= |events| && OnTrack(cfg, c0, events[..n], made, buffer, cursor)
    && CutRight(cfg, t0, events, n, made, buffer) && (cfg.batch >= 1 ==> |buffer| < cfg.batch)
  }

  lemma NothingRead(cfg: Config, c0: Cursor, t0: real, events: seq<Event>)
    ensures Tracked(cfg, c0, t0, events, 0, [], [], c0)
  {}

  lemma TradeIsHeld(cfg: Config, c0: Cursor, t0: real, events: seq<Event>, i: nat, made: seq<seq<nat>>, buffer: seq<nat>,
                    cursor: Cursor)
    requires i < |events| && Tracked(cfg, c0, t0, events, i, made, buffer, cursor)
    requires !FullOrLate(cfg, t0, events, made, |made|, |buffer| + 1)
    ensures Tracked(cfg, c0, t0, events, i + 1, made, buffer + [events[i].trade], cursor)
  {
    NextEvent(cfg, c0, events, i, made, buffer, cursor);
    BufferGrows(cfg, t0, events, i, made, buffer, events[i].trade);
  }

  lemma BatchIsFlushed(cfg: Config, c0: Cursor, t0: real, events: seq<Event>, i: nat, made: seq<seq<nat>>,
                       buffer: seq<nat>, cursor: Cursor)
    requires i < |events| && Tracked(cfg, c0, t0, events, i, made, buffer, cursor)
    requires FullOrLate(cfg, t0, events, made, |made|, |buffer| + 1)
    ensures var more := made + [buffer + [events[i].trade]];
      && Tracked(cfg, c0, t0, events, i + 1, more, [], LastCursor(c0, events[..i + 1]))
      && FlushedAt(t0, events, more, |more|) == events[i].now
  {
    NextEvent(cfg, c0, events, i, made, buffer, cursor);
    FlushStaysOnTrack(cfg, c0, events[..i + 1], made, buffer + [events[i].trade], cursor);
    BatchIsCut(cfg, t0, events, i, made, buffer, events[i].trade);
  }

  lemma CursorStep(c0: Cursor, events: seq<Event>, i: nat)
    requires i < |events|
    ensures LastCursor(c0, events[..i + 1]) ==
      if events[i].cursor.Some? then events[i].cursor.value else LastCursor(c0, events[..i])
  {
    assert events[..i + 1][..i] == events[..i];
  }

  /** The loop over the stream, until it ends or is interrupted. */
  method Listen(store: Store, events: seq<Event>, cfg: Config, t0: real)
    returns (buffer: seq<nat>, last: Cursor, ghost made: seq<seq<nat>>)
    modifies store
    ensures store.batches == old(store.batches) + made && last == LastCursor(old(store.cursor), events)
    ensures Tracked(cfg, old(store.cursor), t0, events, |events|, made, buffer, store.cursor)
  {
    ghost var before, c0 := store.batches, store.cursor;
    made, buffer, last := [], [], store.cursor;
    var lastFlush := t0;
    NothingRead(cfg, c0, t0, events);
    for i := 0 to |events|
      invariant store.batches == before + made && last == LastCursor(c0, events[..i])
      invariant Tracked(cfg, c0, t0, events, i, made, buffer, store.cursor)
      invariant lastFlush == FlushedAt(t0, events, made, |made|)
    {
      var e := events[i];
      CursorStep(c0, events, i);
      ghost var held := buffer;
      buffer := buffer + [e.trade];
      if e.cursor.Some? {
        last := e.cursor.value;
      }
      if FlushDue(cfg, |buffer|, e.now - lastFlush) {
        BatchIsFlushed(cfg, c0, t0, events, i, made, held, store.cursor);
        FlushStreamingBuffer(store, buffer, last);
        Reassociate(before, made, [buffer]);
        made := made + [buffer];
        buffer, lastFlush := [], e.now;
      } else {
        TradeIsHeld(cfg, c0, t0, events, i, made, held, store.cursor);
      }
    }
    assert events[..|events|] == events;
  }

  /** The loop made these batches and this buffer; an interrupt then flushes the buffer. */
  ghost predicate LeftWith(cfg: Config, t0: real, events: seq<Event>, interrupted: bool, batches: seq<seq<nat>>,
                           left: seq<nat>, made: seq<seq<nat>>, buffer: seq<nat>) {
    && CutRight(cfg, t0, events, |events|, made, buffer)
    && batches == (if interrupted && buffer != [] then made + [buffer] else made)
    && left == if interrupted then [] else buffer
  }

  /** Nothing is dropped, doubled or reordered: the batches followed by the buffer are the received stream, and
      the cursor on file is the one reached at the end of the last flushed batch. `interrupted` is the
      keyboard interrupt that ends the loop. */
  method RunStreaming(store: Store, events: seq<Event>, cfg: Config, t0: real, interrupted: bool) returns (left: seq<nat>)
    modifies store
    ensures old(store.batches) <= store.batches
    ensures OnTrack(cfg, old(store.cursor), events, store.batches[|old(store.batches)|..], left, store.cursor)
    // the interrupt alone may flush a batch that is neither full nor late
    ensures exists made, buffer :: LeftWith(cfg, t0, events, interrupted, store.batches[|old(store.batches)|..], left, made, buffer)
    ensures interrupted ==> left == []
    ensures !interrupted && cfg.batch >= 1 ==> |left| < cfg.batch
  {
    ghost var before, c0 := store.batches, store.cursor;
    var last;
    ghost var made;
    left, last, made := Listen(store, events, cfg, t0);
    assert events[..|events|] == events;
    ghost var cut, buffer := made, left;
    if interrupted && left != [] {
      FlushStaysOnTrack(cfg, c0, events, made, left, store.cursor);
      FlushStreamingBuffer(store, left, last);
      made := made + [left];
      left := [];
    }
    assert store.batches[|before|..] == made;
    assert LeftWith(cfg, t0, events, interrupted, made, left, cut, buffer);
  }
}
