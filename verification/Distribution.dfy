/** Background distribution of room keys: a queue of jobs, each wrapped and sent
    in chunks, with failed sends retried. */
module Distribution {
  import opened Bytes

  const DIST_CHUNK: nat := 4
  const DIST_MAX_RETRIES: nat := 3

  /** A recipient device; `otk` is present when it has no Olm session yet. */
  datatype Target = Target(user: string, device: string, curve: string, otk: Option<string>)

  datatype Payload = Payload(user: string, device: string, body: string)

  datatype PendingDist = PendingDist(targets: seq<Target>, next: nat, msgs: seq<Payload>, retries: nat)

  /** Results of the Olm library for one tick: whether a session can be
      established with a device, and the ciphertext for a target, if any. */
  datatype Olm = Olm(establish: string -> bool, encrypt: Target -> Option<string>)

  // --- One tick --------------------------------------------------------------------

  /** Devices with an Olm session, and the payloads of the targets wrapped so far. */
  datatype Wrapping = Wrapping(sessions: set<string>, payloads: seq<Payload>)

  function WrapOne(w: Wrapping, t: Target, olm: Olm): Wrapping {
    if t.curve !in w.sessions && (t.otk.None? || !olm.establish(t.curve)) then w
    else
      var sessions := w.sessions + {t.curve};
      match olm.encrypt(t)
      case None => Wrapping(sessions, w.payloads)
      case Some(body) => Wrapping(sessions, w.payloads + [Payload(t.user, t.device, body)])
  }

  function WrapAll(w: Wrapping, targets: seq<Target>, olm: Olm): Wrapping {
    if targets == [] then w
    else WrapOne(WrapAll(w, targets[..|targets| - 1], olm), targets[|targets| - 1], olm)
  }

  datatype Event =
    | Visit(target: Target)
    | Persist
    | Send(payloads: seq<Payload>, ok: bool)
    | GiveUp(payloads: seq<Payload>)

  /** Where the chunk that starts at `next` ends. */
  function ChunkEnd(job: PendingDist): nat {
    if job.next + DIST_CHUNK < |job.targets| then job.next + DIST_CHUNK else |job.targets|
  }

  function Visits(targets: seq<Target>): seq<Event> {
    seq(|targets|, i requires 0 <= i < |targets| => Visit(targets[i]))
  }

  datatype Ticked = Ticked(job: PendingDist, done: bool, events: seq<Event>)

  /** A job after one tick whose chunk yielded `wrapped` payloads and whose send,
      if there is one, ends with `ok`. */
  function TickJob(job: PendingDist, wrapped: seq<Payload>, ok: bool): Ticked
    requires job.next <= |job.targets|
  {
    var end := ChunkEnd(job);
    var visits := Visits(job.targets[job.next..end]);
    var msgs := job.msgs + wrapped;
    var sent := visits + [Persist, Send(msgs, ok)];
    if msgs == [] then Ticked(job.(next := end), end == |job.targets|, visits)
    else if ok then Ticked(job.(next := end, msgs := [], retries := 0), end == |job.targets|, sent)
    else if job.retries < DIST_MAX_RETRIES then
      Ticked(job.(next := end, msgs := msgs, retries := job.retries + 1), false, sent)
    else Ticked(job.(next := end, msgs := []), end == |job.targets|, sent + [GiveUp(msgs)])
  }

  // --- The queue -----------------------------------------------------------------------

  ghost predicate JobInv(job: PendingDist) {
    && job.next <= |job.targets| && job.targets != []
    && job.retries <= DIST_MAX_RETRIES
    && |job.msgs| <= DIST_CHUNK * job.retries
    && (job.next == |job.targets| ==> job.msgs != [])
  }

  ghost predicate QueueInv(queue: seq<PendingDist>) {
    forall k :: 0 <= k < |queue| ==> JobInv(queue[k])
  }

  /** The queue after a tick of its oldest job. */
  function Ticking(queue: seq<PendingDist>, t: Ticked): seq<PendingDist>
    requires queue != []
  {
    (if t.done then [] else [t.job]) + queue[1..]
  }

  class Distributor {
    /** Oldest job first. */
    var queue: seq<PendingDist>
    /** Devices with an Olm session. */
    var sessions: set<string>
    ghost var log: seq<Event>

    ghost predicate Valid()
      reads this
    {
      QueueInv(queue)
    }

    constructor ()
      ensures Valid() && queue == [] && log == []
    {
      queue, sessions, log := [], {}, [];
    }

    /** Queue a job for the recipients that were found, if there are any. */
    method Enqueue(targets: seq<Target>)
      requires Valid()
      modifies this`queue
      ensures Valid()
      ensures queue == old(queue) + if targets == [] then [] else [PendingDist(targets, 0, [], 0)]
    {
      if targets == [] {
        return;
      }
      queue := queue + [PendingDist(targets, 0, [], 0)];
    }

    /** Establish missing sessions and wrap the key for targets `next..end`. */
    method WrapChunk(job: PendingDist, end: nat, olm: Olm) returns (msgs: seq<Payload>)
      requires job.next <= end <= |job.targets|
      modifies this`sessions, this`log
      ensures var w := WrapAll(Wrapping(old(sessions), []), job.targets[job.next..end], olm);
              sessions == w.sessions && msgs == job.msgs + w.payloads
      ensures log == old(log) + Visits(job.targets[job.next..end])
    {
      hide WrapAll, Visits;
      msgs := job.msgs;
      ghost var chunk := job.targets[job.next..end];
      ghost var start := Wrapping(sessions, []);
      WrapNone(start, olm);
      assert chunk[..0] == [] && log + [] == log && msgs + [] == msgs;
      for i := job.next to end
        invariant var w := WrapAll(start, chunk[..i - job.next], olm);
                  sessions == w.sessions && msgs == job.msgs + w.payloads
        invariant log == old(log) + Visits(chunk[..i - job.next])
      {
        var t := job.targets[i];
        ghost var done := chunk[..i - job.next];
        assert chunk[..i + 1 - job.next] == done + [t];
        WrapSnoc(start, done, t, olm);
        VisitsSnoc(done, t);
        log := log + [Visit(t)];
        if t.curve !in sessions {
          match t.otk {
            case Some(otk) =>
              if olm.establish(t.curve) {
                sessions := sessions + {t.curve};
              }
            case None =>
              continue;
          }
          if t.curve !in sessions {
            continue;
          }
        }
        assert sessions == sessions + {t.curve};
        match olm.encrypt(t) {
          case Some(body) => msgs := msgs + [Payload(t.user, t.device, body)];
          case None =>
        }
      }
      assert chunk[..end - job.next] == chunk;
    }

    /** One tick. `crypto` is absent when the account is gone: every job is then
        dropped. Otherwise only the oldest job moves. */
    method ProcessDistribution(crypto: Option<Olm>, ok: bool)
      requires Valid()
      modifies this
      ensures Valid()
      ensures old(queue) == [] ==> queue == [] && log == old(log)
      ensures crypto.None? ==> queue == [] && log == old(log)
      ensures crypto.Some? && old(queue) != [] ==>
                var job := old(queue)[0];
                var w := WrapAll(Wrapping(old(sessions), []), job.targets[job.next..ChunkEnd(job)], crypto.value);
                var t := TickJob(job, w.payloads, ok);
                && sessions == w.sessions
                && log == old(log) + t.events
                && queue == Ticking(old(queue), t)
    {
      if queue == [] {
        return;
      }
      if crypto.None? {
        queue := [];
        return;
      }
      hide WrapAll, Visits, JobInv, QueueInv;
      var job := queue[0];
      FrontInside(queue);
      var end := if job.next + DIST_CHUNK < |job.targets| then job.next + DIST_CHUNK else |job.targets|;
      ghost var chunk := job.targets[job.next..end];
      ghost var wrapped := WrapAll(Wrapping(sessions, []), chunk, crypto.value).payloads;
      WrapSize(Wrapping(sessions, []), chunk, crypto.value);
      TickKeepsQueue(queue, wrapped, ok);
      var msgs := WrapChunk(job, end, crypto.value);
      job := job.(next := end, msgs := msgs);
      if job.msgs != [] {
        ghost var sent := [Persist, Send(job.msgs, ok)];
        assert old(log) + (Visits(chunk) + sent) == log + sent;
        log := log + sent;
        if ok {
          job := job.(msgs := [], retries := 0);
        } else if job.retries < DIST_MAX_RETRIES {
          job := job.(retries := job.retries + 1);
          queue := [job] + queue[1..];
          return;
        } else {
          ghost var gaveUp := [GiveUp(job.msgs)];
          assert old(log) + (Visits(chunk) + sent + gaveUp) == log + gaveUp;
          log := log + gaveUp;
          job := job.(msgs := []);
        }
      }
      queue := (if job.next >= |job.targets| then [] else [job]) + queue[1..];
    }
  }

  lemma WrapSnoc(w: Wrapping, targets: seq<Target>, t: Target, olm: Olm)
    ensures WrapAll(w, targets + [t], olm) == WrapOne(WrapAll(w, targets, olm), t, olm)
  {
    assert (targets + [t])[..|targets|] == targets;
  }

  lemma WrapNone(w: Wrapping, olm: Olm)
    ensures WrapAll(w, [], olm) == w && Visits([]) == []
  {
  }

  lemma VisitsSnoc(targets: seq<Target>, t: Target)
    ensures Visits(targets + [t]) == Visits(targets) + [Visit(t)]
  {
  }

  /** A chunk wraps each of its targets at most once. */
  lemma {:induction false} WrapSize(w: Wrapping, targets: seq<Target>, olm: Olm)
    ensures |w.payloads| <= |WrapAll(w, targets, olm).payloads| <= |w.payloads| + |targets|
    ensures w.sessions <= WrapAll(w, targets, olm).sessions
  {
    if targets != [] {
      WrapSize(w, targets[..|targets| - 1], olm);
    }
  }

  /** A target is wrapped exactly when it has a session, or one can be set up with
      its one-time key; its payload is addressed to itself. */
  lemma {:induction false} WrapOutcome(w: Wrapping, t: Target, olm: Olm)
    ensures var after := WrapOne(w, t, olm);
            var usable := t.curve in w.sessions || (t.otk.Some? && olm.establish(t.curve));
            && after.sessions == w.sessions + (if usable then {t.curve} else {})
            && after.payloads == w.payloads + (if usable && olm.encrypt(t).Some?
                                               then [Payload(t.user, t.device, olm.encrypt(t).value)] else [])
  {
    assert w.sessions + {} == w.sessions && w.payloads + [] == w.payloads;
  }

  /** The payload of a target, if encryption succeeds. */
  predicate IsFor(p: Payload, t: Target, olm: Olm) {
    p.user == t.user && p.device == t.device && olm.encrypt(t) == Some(p.body)
  }

  ghost predicate HasTarget(p: Payload, targets: seq<Target>, olm: Olm) {
    exists t :: t in targets && IsFor(p, t, olm)
  }

  ghost predicate HasPayload(t: Target, payloads: seq<Payload>, olm: Olm) {
    exists p :: p in payloads && IsFor(p, t, olm)
  }

  /** Every payload of a chunk is for one of its targets, and every target with a
      session whose encryption succeeds gets one. */
  lemma {:induction false} ChunkPayloads(w: Wrapping, targets: seq<Target>, olm: Olm)
    ensures var after := WrapAll(w, targets, olm);
            && w.payloads <= after.payloads && w.sessions <= after.sessions
            && (forall k :: |w.payloads| <= k < |after.payloads| ==> HasTarget(after.payloads[k], targets, olm))
            && (forall t :: t in targets && t.curve in w.sessions && olm.encrypt(t).Some? ==>
                  HasPayload(t, after.payloads, olm))
  {
    hide WrapOne;
    if targets == [] {
      assert WrapAll(w, targets, olm) == w;
    } else {
      var init, last := targets[..|targets| - 1], targets[|targets| - 1];
      var mid, after := WrapAll(w, init, olm), WrapAll(w, targets, olm);
      ChunkPayloads(w, init, olm);
      assert after == WrapOne(mid, last, olm);
      WrapOutcome(mid, last, olm);
      forall k | |w.payloads| <= k < |after.payloads| ensures HasTarget(after.payloads[k], targets, olm) {
        if k < |mid.payloads| {
          assert HasTarget(mid.payloads[k], init, olm);
          var t :| t in init && IsFor(mid.payloads[k], t, olm);
          assert t in targets;
        } else {
          assert last in targets && IsFor(after.payloads[k], last, olm);
        }
      }
      forall t | t in targets && t.curve in w.sessions && olm.encrypt(t).Some?
        ensures HasPayload(t, after.payloads, olm)
      {
        if t in init {
          assert HasPayload(t, mid.payloads, olm);
          var p :| p in mid.payloads && IsFor(p, t, olm);
          assert p in after.payloads;
        } else {
          var p := Payload(t.user, t.device, olm.encrypt(t).value);
          assert after.payloads[|mid.payloads|] == p && IsFor(p, t, olm);
        }
      }
    }
  }

  lemma TickKeepsInv(job: PendingDist, wrapped: seq<Payload>, ok: bool)
    requires JobInv(job) && |wrapped| <= ChunkEnd(job) - job.next
    ensures var t := TickJob(job, wrapped, ok); t.done || JobInv(t.job)
  {
  }

  lemma TickKeepsQueue(queue: seq<PendingDist>, wrapped: seq<Payload>, ok: bool)
    requires QueueInv(queue) && queue != []
    requires queue[0].next <= |queue[0].targets| && |wrapped| <= ChunkEnd(queue[0]) - queue[0].next
    ensures QueueInv(Ticking(queue, TickJob(queue[0], wrapped, ok)))
  {
    hide JobInv, TickJob, ChunkEnd;
    TickKeepsInv(queue[0], wrapped, ok);
  }

  lemma FrontInside(queue: seq<PendingDist>)
    requires QueueInv(queue) && queue != []
    ensures var job := queue[0]; job.next <= ChunkEnd(job) <= |job.targets|
  {
  }

  // --- How long a job takes --------------------------------------------------------------

  function Chunks(n: nat): nat { (n + DIST_CHUNK - 1) / DIST_CHUNK }

  /** Ticks after which a job has certainly left the queue. */
  function TicksLeft(job: PendingDist): nat
    requires job.next <= |job.targets| && job.retries <= DIST_MAX_RETRIES
  {
    if job.next < |job.targets| then Chunks(|job.targets| - job.next) + DIST_MAX_RETRIES
    else DIST_MAX_RETRIES + 1 - job.retries
  }

  lemma {:induction false} TickShortens(job: PendingDist, wrapped: seq<Payload>, ok: bool)
    requires JobInv(job) && |wrapped| <= ChunkEnd(job) - job.next
    ensures var t := TickJob(job, wrapped, ok); t.done || (JobInv(t.job) && TicksLeft(t.job) < TicksLeft(job))
    ensures TicksLeft(job) >= 1
  {
    TickKeepsInv(job, wrapped, ok);
    ChunkOff(|job.targets| - job.next);
  }

  lemma ChunkOff(n: nat)
    ensures n > DIST_CHUNK ==> Chunks(n - DIST_CHUNK) == Chunks(n) - 1
    ensures 0 < n <= DIST_CHUNK ==> Chunks(n) == 1
  {
  }

  // --- A job from start to end --------------------------------------------------------------

  /** What the environment contributes to a tick of a job. */
  datatype Turn = Turn(wrapped: seq<Payload>, ok: bool)

  datatype Run = Run(job: PendingDist, done: bool, log: seq<Event>, produced: seq<Payload>)

  function Started(targets: seq<Target>): Run { Run(PendingDist(targets, 0, [], 0), false, [], []) }

  function Next(r: Run, turn: Turn): Run
    requires r.job.next <= |r.job.targets|
  {
    if r.done then r
    else
      var t := TickJob(r.job, turn.wrapped, turn.ok);
      Run(t.job, t.done, r.log + t.events, r.produced + turn.wrapped)
  }

  /** At most one payload per target of the chunk. */
  ghost predicate Allowed(r: Run, turn: Turn)
    requires r.job.next <= |r.job.targets|
  {
    r.done || |turn.wrapped| <= ChunkEnd(r.job) - r.job.next
  }

  ghost predicate After(r: Run, turns: seq<Turn>, r': Run)
    decreases |turns|
  {
    if turns == [] then r' == r
    else r.job.next <= |r.job.targets| && Allowed(r, turns[0]) && After(Next(r, turns[0]), turns[1..], r')
  }

  function Visited(log: seq<Event>): seq<Target> {
    if log == [] then []
    else
      var init, e := Visited(log[..|log| - 1]), log[|log| - 1];
      if e.Visit? then init + [e.target] else init
  }

  function Delivered(log: seq<Event>): seq<Payload> {
    if log == [] then []
    else
      var init, e := Delivered(log[..|log| - 1]), log[|log| - 1];
      if e.Send? && e.ok then init + e.payloads else init
  }

  function Dropped(log: seq<Event>): seq<Payload> {
    if log == [] then []
    else
      var init, e := Dropped(log[..|log| - 1]), log[|log| - 1];
      if e.GiveUp? then init + e.payloads else init
  }

  /** Every send carries at most one chunk and three failed ones, and follows a save. */
  ghost predicate SendsSound(log: seq<Event>) {
    forall k :: 0 <= k < |log| && log[k].Send? ==>
      |log[k].payloads| <= 16 && k > 0 && log[k - 1] == Persist
  }

  ghost predicate RunInv(r: Run) {
    && r.job.next <= |r.job.targets|
    && (r.done ==> r.job.next == |r.job.targets| && r.job.msgs == [])
    && (!r.done ==> JobInv(r.job))
    && Visited(r.log) == r.job.targets[..r.job.next]
    && multiset(r.produced) == multiset(Delivered(r.log)) + multiset(Dropped(r.log)) + multiset(r.job.msgs)
    && SendsSound(r.log)
  }

  lemma LogSnoc(log: seq<Event>, e: Event)
    ensures Visited(log + [e]) == Visited(log) + if e.Visit? then [e.target] else []
    ensures Delivered(log + [e]) == Delivered(log) + if e.Send? && e.ok then e.payloads else []
    ensures Dropped(log + [e]) == Dropped(log) + if e.GiveUp? then e.payloads else []
  {
    assert (log + [e])[..|log|] == log;
  }

  lemma SoundSnoc(log: seq<Event>, e: Event)
    requires SendsSound(log)
    requires e.Send? ==> log != [] && log[|log| - 1] == Persist
                         && |e.payloads| <= (DIST_MAX_RETRIES + 1) * DIST_CHUNK
    ensures SendsSound(log + [e])
  {
  }

  lemma {:induction false} VisitsLog(log: seq<Event>, targets: seq<Target>)
    requires SendsSound(log)
    ensures Visited(log + Visits(targets)) == Visited(log) + targets
    ensures Delivered(log + Visits(targets)) == Delivered(log)
    ensures Dropped(log + Visits(targets)) == Dropped(log)
    ensures SendsSound(log + Visits(targets))
  {
    hide Visited, Delivered, Dropped, SendsSound;
    if targets == [] {
      assert log + Visits(targets) == log && Visited(log) + targets == Visited(log);
    } else {
      var init, t := targets[..|targets| - 1], targets[|targets| - 1];
      VisitsLog(log, init);
      VisitsSnoc(init, t);
      assert targets == init + [t];
      var before := log + Visits(init);
      assert log + Visits(targets) == before + [Visit(t)];
      LogSnoc(before, Visit(t));
      SoundSnoc(before, Visit(t));
    }
  }

  lemma SendLog(log: seq<Event>, payloads: seq<Payload>, ok: bool)
    requires SendsSound(log) && |payloads| <= (DIST_MAX_RETRIES + 1) * DIST_CHUNK
    ensures var l := log + [Persist, Send(payloads, ok)];
            && Visited(l) == Visited(log) && Dropped(l) == Dropped(log) && SendsSound(l)
            && Delivered(l) == Delivered(log) + if ok then payloads else []
  {
    hide Visited, Delivered, Dropped, SendsSound;
    LogSnoc(log, Persist);
    SoundSnoc(log, Persist);
    LogSnoc(log + [Persist], Send(payloads, ok));
    SoundSnoc(log + [Persist], Send(payloads, ok));
    assert log + [Persist, Send(payloads, ok)] == log + [Persist] + [Send(payloads, ok)];
  }

  /** What a tick adds to the log. */
  lemma TickLog(log: seq<Event>, job: PendingDist, wrapped: seq<Payload>, ok: bool)
    requires JobInv(job) && |wrapped| <= ChunkEnd(job) - job.next && SendsSound(log)
    ensures var t := TickJob(job, wrapped, ok);
            var msgs, l := job.msgs + wrapped, log + t.events;
            && Visited(l) == Visited(log) + job.targets[job.next..ChunkEnd(job)] && SendsSound(l)
            && Delivered(l) == Delivered(log) + (if ok then msgs else [])
            && Dropped(l) == Dropped(log) + (if !ok && job.retries == DIST_MAX_RETRIES then msgs else [])
  {
    hide Visited, Delivered, Dropped, SendsSound, Visits;
    var chunk, msgs := job.targets[job.next..ChunkEnd(job)], job.msgs + wrapped;
    var visited := log + Visits(chunk);
    var pair, gave := [Persist, Send(msgs, ok)], [GiveUp(msgs)];
    VisitsLog(log, chunk);
    if msgs != [] {
      SendLog(visited, msgs, ok);
      assert log + (Visits(chunk) + pair) == visited + pair;
      if !ok && job.retries == DIST_MAX_RETRIES {
        LogSnoc(visited + pair, GiveUp(msgs));
        SoundSnoc(visited + pair, GiveUp(msgs));
        assert log + (Visits(chunk) + pair + gave) == visited + pair + gave;
      }
    }
  }

  lemma NextKeepsInv(r: Run, turn: Turn)
    requires RunInv(r) && Allowed(r, turn)
    ensures RunInv(Next(r, turn))
  {
    hide Visited, Delivered, Dropped, SendsSound, Visits;
    if !r.done {
      var job, wrapped := r.job, turn.wrapped;
      TickKeepsInv(job, wrapped, turn.ok);
      TickLog(r.log, job, wrapped, turn.ok);
      assert job.targets[..ChunkEnd(job)] == job.targets[..job.next] + job.targets[job.next..ChunkEnd(job)];
      assert multiset(r.produced + wrapped) == multiset(r.produced) + multiset(wrapped);
      assert multiset(job.msgs + wrapped) == multiset(job.msgs) + multiset(wrapped);
    }
  }

  lemma StartedInv(targets: seq<Target>)
    requires targets != []
    ensures RunInv(Started(targets))
  {
  }

  lemma {:induction false} RunKeepsInv(r: Run, turns: seq<Turn>, r': Run)
    requires RunInv(r) && After(r, turns, r')
    ensures RunInv(r') && r'.job.targets == r.job.targets
    ensures !r'.done ==> !r.done && TicksLeft(r'.job) + |turns| <= TicksLeft(r.job)
    decreases |turns|
  {
    hide RunInv, Allowed;
    if turns != [] {
      NextKeepsInv(r, turns[0]);
      RunKeepsInv(Next(r, turns[0]), turns[1..], r');
      RunFacts(r);
      RunFacts(r');
      if !r.done {
        AllowedSize(r, turns[0]);
        TickShortens(r.job, turns[0].wrapped, turns[0].ok);
      }
    } else {
      RunFacts(r);
    }
  }

  lemma RunFacts(r: Run)
    requires RunInv(r)
    ensures r.job.next <= |r.job.targets|
    ensures r.done || JobInv(r.job)
  {
  }

  lemma AllowedSize(r: Run, turn: Turn)
    requires r.job.next <= |r.job.targets| && Allowed(r, turn) && !r.done
    ensures |turn.wrapped| <= ChunkEnd(r.job) - r.job.next
  {
  }

  /** For every pattern of send failures: a job of `n` targets is done within
      ceil(n/4) + 3 of its ticks; it has then visited every target exactly once,
      in order; every payload it produced was delivered or dropped; and no send
      carried more than 16 payloads. */
  lemma {:induction false} JobCompletes(targets: seq<Target>, turns: seq<Turn>, r: Run)
    requires targets != [] && After(Started(targets), turns, r)
    ensures |Visited(r.log)| <= |targets| && Visited(r.log) == targets[..|Visited(r.log)|]
    ensures SendsSound(r.log)
    ensures multiset(r.produced) == multiset(Delivered(r.log)) + multiset(Dropped(r.log)) + multiset(r.job.msgs)
    ensures |turns| >= (|targets| + 3) / 4 + 3 ==> r.done
    ensures r.done ==> Visited(r.log) == targets && r.job.msgs == []
  {
    StartedInv(targets);
    RunKeepsInv(Started(targets), turns, r);
    var n := r.job.next;
    assert Visited(r.log) == targets[..n];
    assert !r.done ==> TicksLeft(r.job) >= 1;
  }

  /** The bound is reached: one good send, then nothing but failures. */
  lemma BoundIsTight(a: Target, p: Payload)
    ensures var targets := [a, a, a, a, a];
            var turns := [Turn([], true), Turn([p], false), Turn([], false), Turn([], false)];
            exists r :: After(Started(targets), turns, r) && !r.done
                        && |turns| == (|targets| + 3) / 4 + 3 - 1
  {
    var targets := [a, a, a, a, a];
    var t0, t1, t2 := Turn([], true), Turn([p], false), Turn([], false);
    var r0 := Started(targets);
    var r1 := Next(r0, t0);
    var r2 := Next(r1, t1);
    var r3 := Next(r2, t2);
    var r4 := Next(r3, t2);
    assert r1.job.next == 4 && !r1.done;
    assert r2.job.next == 5 && r2.job.retries == 1 && !r2.done;
    assert r3.job.retries == 2 && !r3.done;
    assert r4.job.retries == 3 && !r4.done;
    assert [t0, t1, t2, t2][1..] == [t1, t2, t2] && [t1, t2, t2][1..] == [t2, t2] && [t2, t2][1..] == [t2];
    assert After(r4, [], r4) && [t2][1..] == [];
    assert After(r3, [t2], r4);
    assert After(r2, [t2, t2], r4);
    assert After(r1, [t1, t2, t2], r4);
    assert After(r0, [t0, t1, t2, t2], r4);
  }

  /** A send can carry four chunks: the accumulator is not bounded by one chunk. */
  lemma FourChunksInOneSend(targets: seq<Target>, wrapped: seq<Payload>)
    requires |targets| >= 16 && |wrapped| == 4
    ensures var r := Next(Next(Next(Next(Started(targets), Turn(wrapped, false)), Turn(wrapped, false)),
                               Turn(wrapped, false)), Turn(wrapped, false));
            exists k :: 0 <= k < |r.log| && r.log[k].Send? && |r.log[k].payloads| == 16
  {
    var turn := Turn(wrapped, false);
    var r1 := Next(Started(targets), turn);
    var r2 := Next(r1, turn);
    var r3 := Next(r2, turn);
    var r4 := Next(r3, turn);
    assert r3.job.retries == 3 && |r3.job.msgs| == 12 && r3.job.next == 12;
    var k := |r3.log| + 5;
    assert r4.log[k] == Send(r3.job.msgs + wrapped, false);
  }

  // --- What failed sends leave behind -------------------------------------------------------

  /** Failed sends since the last successful one. Giving up does not clear them. */
  function Failures(log: seq<Event>): nat {
    if log == [] then 0
    else
      var init, e := log[..|log| - 1], log[|log| - 1];
      if !e.Send? then Failures(init) else if e.ok then 0 else Failures(init) + 1
  }

  /** The last thing that happened is a failed send that is kept for a retry. */
  predicate Retrying(log: seq<Event>) { log != [] && log[|log| - 1].Send? && !log[|log| - 1].ok }

  predicate GaveUp(log: seq<Event>) { log != [] && log[|log| - 1].GiveUp? }

  /** The job's counter and accumulator, read off the log. */
  ghost predicate RetryInv(r: Run) {
    && (!r.done ==>
          && r.job.retries == (if Failures(r.log) < DIST_MAX_RETRIES then Failures(r.log) else DIST_MAX_RETRIES)
          && (r.job.msgs != [] <==> Retrying(r.log)))
    && (GaveUp(r.log) ==> Failures(r.log) > DIST_MAX_RETRIES)
  }

  lemma FailuresSnoc(log: seq<Event>, e: Event)
    ensures Failures(log + [e]) == if !e.Send? then Failures(log) else if e.ok then 0 else Failures(log) + 1
    ensures Retrying(log + [e]) == (e.Send? && !e.ok) && GaveUp(log + [e]) == e.GiveUp?
  {
    assert (log + [e])[..|log|] == log;
  }

  lemma {:induction false} VisitsFailNothing(log: seq<Event>, targets: seq<Target>)
    ensures Failures(log + Visits(targets)) == Failures(log)
    ensures targets != [] ==> !Retrying(log + Visits(targets)) && !GaveUp(log + Visits(targets))
  {
    hide Failures, Retrying, GaveUp;
    if targets == [] {
      assert log + Visits(targets) == log;
    } else {
      var init, t := targets[..|targets| - 1], targets[|targets| - 1];
      VisitsFailNothing(log, init);
      VisitsSnoc(init, t);
      assert targets == init + [t];
      assert log + Visits(targets) == log + Visits(init) + [Visit(t)];
      FailuresSnoc(log + Visits(init), Visit(t));
    }
  }

  /** Failures after a tick. */
  lemma TickFailures(log: seq<Event>, job: PendingDist, wrapped: seq<Payload>, ok: bool)
    requires JobInv(job) && |wrapped| <= ChunkEnd(job) - job.next
    ensures var msgs, l := job.msgs + wrapped, log + TickJob(job, wrapped, ok).events;
            if msgs == [] then Failures(l) == Failures(log) && !Retrying(l) && !GaveUp(l)
            else
              && Failures(l) == (if ok then 0 else Failures(log) + 1)
              && Retrying(l) == (!ok && job.retries < DIST_MAX_RETRIES)
              && GaveUp(l) == (!ok && job.retries == DIST_MAX_RETRIES)
  {
    hide Failures, Retrying, GaveUp, Visits;
    var chunk, msgs := job.targets[job.next..ChunkEnd(job)], job.msgs + wrapped;
    var visited := log + Visits(chunk);
    VisitsFailNothing(log, chunk);
    if msgs != [] {
      var e := Send(msgs, ok);
      FailuresSnoc(visited, Persist);
      FailuresSnoc(visited + [Persist], e);
      assert log + (Visits(chunk) + [Persist, e]) == visited + [Persist] + [e];
      if !ok && job.retries == DIST_MAX_RETRIES {
        FailuresSnoc(visited + [Persist] + [e], GiveUp(msgs));
        assert log + (Visits(chunk) + [Persist, e] + [GiveUp(msgs)]) == visited + [Persist] + [e] + [GiveUp(msgs)];
      }
    }
  }

  lemma NextKeepsRetryInv(r: Run, turn: Turn)
    requires RunInv(r) && Allowed(r, turn) && RetryInv(r)
    ensures RetryInv(Next(r, turn))
  {
    hide Failures, Retrying, GaveUp, Visits, RunInv;
    RunFacts(r);
    if !r.done {
      AllowedSize(r, turn);
      TickFailures(r.log, r.job, turn.wrapped, turn.ok);
    }
  }

  lemma {:induction false} RunKeepsRetryInv(r: Run, turns: seq<Turn>, r': Run)
    requires RunInv(r) && RetryInv(r) && After(r, turns, r')
    ensures RunInv(r') && RetryInv(r')
    decreases |turns|
  {
    hide RunInv, Allowed, RetryInv;
    if turns != [] {
      RunFacts(r);
      NextKeepsInv(r, turns[0]);
      NextKeepsRetryInv(r, turns[0]);
      RunKeepsRetryInv(Next(r, turns[0]), turns[1..], r');
    }
  }

  lemma {:induction false} Reached(targets: seq<Target>, turns: seq<Turn>, r: Run)
    requires targets != [] && After(Started(targets), turns, r)
    ensures RunInv(r) && RetryInv(r) && r.job.targets == targets
  {
    StartedInv(targets);
    RunKeepsRetryInv(Started(targets), turns, r);
    RunKeepsInv(Started(targets), turns, r);
  }

  /** A failed send is given up at once exactly when three sends have failed since
      the last success, whether or not payloads were given up in between. */
  lemma {:induction false} GivenUpIffThreeFailures(targets: seq<Target>, turns: seq<Turn>, r: Run, turn: Turn)
    requires targets != [] && After(Started(targets), turns, r) && !r.done
    requires r.job.next <= |r.job.targets| && Allowed(r, turn) && !turn.ok && r.job.msgs + turn.wrapped != []
    ensures GaveUp(Next(r, turn).log) <==> Failures(r.log) >= 3
    ensures Retrying(Next(r, turn).log) <==> Failures(r.log) < 3
    ensures Failures(Next(r, turn).log) == Failures(r.log) + 1
  {
    hide Failures, Retrying, GaveUp, Visits, RunInv;
    Reached(targets, turns, r);
    RunFacts(r);
    AllowedSize(r, turn);
    TickFailures(r.log, r.job, turn.wrapped, turn.ok);
  }

  /** From `from` on, the payloads of every send are dropped right after it. */
  ghost predicate DroppedAtOnce(log: seq<Event>, from: nat) {
    forall k :: from <= k < |log| && log[k].Send? ==> k + 1 < |log| && log[k + 1] == GiveUp(log[k].payloads)
  }

  /** Once payloads were given up, every send is dropped at once until one
      succeeds. */
  lemma {:induction false} DroppedUntilSuccess(targets: seq<Target>, turns: seq<Turn>, r: Run, more: seq<Turn>, r': Run)
    requires targets != [] && After(Started(targets), turns, r) && GaveUp(r.log)
    requires After(r, more, r') && forall i :: 0 <= i < |more| ==> !more[i].ok
    ensures r.log <= r'.log && DroppedAtOnce(r'.log, |r.log|)
  {
    hide Failures, RunInv;
    Reached(targets, turns, r);
    FailingRun(r, more, r', |r.log|);
  }

  lemma {:induction false} FailingRun(r: Run, more: seq<Turn>, r': Run, from: nat)
    requires RunInv(r) && RetryInv(r) && After(r, more, r') && forall i :: 0 <= i < |more| ==> !more[i].ok
    requires Failures(r.log) >= DIST_MAX_RETRIES && !Retrying(r.log)
    requires from <= |r.log| && DroppedAtOnce(r.log, from)
    ensures r.log <= r'.log && DroppedAtOnce(r'.log, from)
    decreases |more|
  {
    hide Failures, RunInv, Allowed, Visits, RetryInv, DroppedAtOnce, Retrying;
    if more != [] {
      RunFacts(r);
      var next := Next(r, more[0]);
      NextKeepsInv(r, more[0]);
      NextKeepsRetryInv(r, more[0]);
      FailingTick(r, more[0], from);
      FailingRun(next, more[1..], r', from);
    }
  }

  lemma FailingTick(r: Run, turn: Turn, from: nat)
    requires RunInv(r) && RetryInv(r) && Allowed(r, turn) && !turn.ok
    requires Failures(r.log) >= DIST_MAX_RETRIES && !Retrying(r.log)
    requires from <= |r.log| && DroppedAtOnce(r.log, from)
    ensures var next := Next(r, turn);
            && r.log <= next.log && DroppedAtOnce(next.log, from)
            && Failures(next.log) >= DIST_MAX_RETRIES && !Retrying(next.log)
  {
    hide Failures, RunInv, Retrying, GaveUp;
    RunFacts(r);
    if !r.done {
      AllowedSize(r, turn);
      TickFailures(r.log, r.job, turn.wrapped, false);
      var job, msgs := r.job, r.job.msgs + turn.wrapped;
      var chunk := job.targets[job.next..ChunkEnd(job)];
      NewEvents(r.log, chunk, msgs, from);
    }
  }

  lemma NewEvents(log: seq<Event>, chunk: seq<Target>, msgs: seq<Payload>, from: nat)
    requires from <= |log| && DroppedAtOnce(log, from)
    ensures DroppedAtOnce(log + Visits(chunk), from)
    ensures DroppedAtOnce(log + (Visits(chunk) + [Persist, Send(msgs, false)] + [GiveUp(msgs)]), from)
  {
    var l := log + (Visits(chunk) + [Persist, Send(msgs, false)] + [GiveUp(msgs)]);
    var n := |log| + |chunk|;
    assert l[n] == Persist && l[n + 1] == Send(msgs, false) && l[n + 2] == GiveUp(msgs);
    assert forall k :: 0 <= k < |log| ==> l[k] == log[k];
    assert forall k :: |log| <= k < n ==> l[k] == Visits(chunk)[k - |log|];
  }

  // --- How much one send carries ------------------------------------------------------------

  /** No send from `from` on carries more than one chunk. */
  ghost predicate WithinChunk(log: seq<Event>, from: nat) {
    forall k :: from <= k < |log| && log[k].Send? ==> |log[k].payloads| <= 4
  }

  /** In every reachable state, the next send is sure to stay within one chunk
      exactly when no failed send is waiting for its retry, or what waits and the
      targets of the next tick are together no more than a chunk. */
  lemma {:induction false} OneChunkUnlessRetrying(targets: seq<Target>, turns: seq<Turn>, r: Run)
    requires targets != [] && After(Started(targets), turns, r) && !r.done
    requires r.job.next <= |r.job.targets|
    ensures (forall turn :: Allowed(r, turn) ==> WithinChunk(Next(r, turn).log, |r.log|))
       <==> !Retrying(r.log) || |r.job.msgs| + ChunkEnd(r.job) - r.job.next <= 4
  {
    hide Failures, Retrying, RunInv;
    Reached(targets, turns, r);
    RunFacts(r);
    var left := ChunkEnd(r.job) - r.job.next;
    if Retrying(r.log) && |r.job.msgs| + left > DIST_CHUNK {
      var turn := Turn(seq(left, _ => r.job.msgs[0]), true);
      assert Allowed(r, turn);
      NextSend(r, turn);
      assert !WithinChunk(Next(r, turn).log, |r.log|);
    } else {
      forall turn | Allowed(r, turn) ensures WithinChunk(Next(r, turn).log, |r.log|) {
        NextSend(r, turn);
      }
    }
  }

  /** What a tick of a running job adds to the log. */
  lemma NextSend(r: Run, turn: Turn)
    requires !r.done && JobInv(r.job) && Allowed(r, turn)
    ensures var n, msgs := |r.log| + ChunkEnd(r.job) - r.job.next, r.job.msgs + turn.wrapped;
            var log := Next(r, turn).log;
            && (msgs == [] ==> |log| == n)
            && (msgs != [] ==> n + 1 < |log| && log[n + 1] == Send(msgs, turn.ok))
            && (forall k :: |r.log| <= k < |log| && log[k].Send? ==> msgs != [] && k == n + 1)
  {
    var job, msgs := r.job, r.job.msgs + turn.wrapped;
    var visits := Visits(job.targets[job.next..ChunkEnd(job)]);
    var log, n := Next(r, turn).log, |r.log| + |visits|;
    assert forall k :: |r.log| <= k < n ==> log[k] == visits[k - |r.log|];
    if msgs != [] {
      assert log[n] == Persist && log[n + 1] == Send(msgs, turn.ok);
    }
  }

  // --- The whole queue ---------------------------------------------------------------------

  /** Targets still to visit, oldest job first. */
  ghost function Backlog(queue: seq<PendingDist>): seq<Target>
    requires QueueInv(queue)
  {
    if queue == [] then [] else queue[0].targets[queue[0].next..] + Backlog(queue[1..])
  }

  /** Ticks after which the queue is certainly empty. */
  ghost function QueueTicks(queue: seq<PendingDist>): nat
    requires QueueInv(queue)
  {
    if queue == [] then 0 else TicksLeft(queue[0]) + QueueTicks(queue[1..])
  }

  /** A tick visits the front of the backlog and brings the end closer. */
  lemma TickDrains(queue: seq<PendingDist>, log: seq<Event>, wrapped: seq<Payload>, ok: bool)
    requires QueueInv(queue) && queue != [] && SendsSound(log)
    requires |wrapped| <= ChunkEnd(queue[0]) - queue[0].next
    ensures var t := TickJob(queue[0], wrapped, ok);
            var q := Ticking(queue, t);
            && QueueInv(q) && QueueTicks(q) < QueueTicks(queue)
            && Visited(log + t.events) + Backlog(q) == Visited(log) + Backlog(queue)
            && SendsSound(log + t.events)
  {
    hide Visited, SendsSound, JobInv, TickJob, TicksLeft, ChunkEnd;
    FrontInside(queue);
    TickShortens(queue[0], wrapped, ok);
    TickLog(log, queue[0], wrapped, ok);
    TickKeepsQueue(queue, wrapped, ok);
    TickBacklog(queue, wrapped, ok);
    var job := queue[0];
    var chunk, q := job.targets[job.next..ChunkEnd(job)], Ticking(queue, TickJob(job, wrapped, ok));
    assert q == queue[1..] || q[1..] == queue[1..];
    assert Visited(log) + (chunk + Backlog(q)) == Visited(log) + chunk + Backlog(q);
  }

  lemma TickBacklog(queue: seq<PendingDist>, wrapped: seq<Payload>, ok: bool)
    requires QueueInv(queue) && queue != [] && |wrapped| <= ChunkEnd(queue[0]) - queue[0].next
    ensures var job := queue[0];
            var q := Ticking(queue, TickJob(job, wrapped, ok));
            && job.next <= ChunkEnd(job) <= |job.targets| && QueueInv(q)
            && Backlog(queue) == job.targets[job.next..ChunkEnd(job)] + Backlog(q)
  {
    hide JobInv, TickJob, ChunkEnd;
    FrontInside(queue);
    var job, rest := queue[0], queue[1..];
    var t := TickJob(job, wrapped, ok);
    TickKeepsQueue(queue, wrapped, ok);
    DoneAtEnd(job, wrapped, ok);
    var chunk, end := job.targets[job.next..ChunkEnd(job)], job.targets[ChunkEnd(job)..];
    assert job.targets[job.next..] == chunk + end;
    assert chunk + end + Backlog(rest) == chunk + (end + Backlog(rest));
    if t.done {
      assert Ticking(queue, t) == rest && end + Backlog(rest) == Backlog(rest);
    } else {
      assert Ticking(queue, t)[1..] == rest;
    }
  }

  lemma DoneAtEnd(job: PendingDist, wrapped: seq<Payload>, ok: bool)
    requires JobInv(job)
    ensures var t := TickJob(job, wrapped, ok);
            t.job.targets == job.targets && t.job.next == ChunkEnd(job)
            && (t.done ==> job.targets[ChunkEnd(job)..] == [])
    ensures job.next <= ChunkEnd(job) <= |job.targets|
  {
  }

  /** A job is offered, or a tick comes while the account is there. */
  datatype Input = Offer(targets: seq<Target>) | Tick(olm: Olm, ok: bool)

  /** The targets offered, in order. */
  function Offered(inputs: seq<Input>): seq<Target> {
    if inputs == [] then []
    else
      var init, e := Offered(inputs[..|inputs| - 1]), inputs[|inputs| - 1];
      if e.Offer? then init + e.targets else init
  }

  /** Over any run, the targets are visited first-in first-out, each once: those
      visited and those in the queue are always the ones offered, in that order. */
  method Drain(d: Distributor, inputs: seq<Input>)
    requires d.Valid() && SendsSound(d.log)
    modifies d
    ensures d.Valid() && SendsSound(d.log)
    ensures Visited(d.log) + Backlog(d.queue) == Visited(old(d.log)) + Backlog(old(d.queue)) + Offered(inputs)
    ensures (forall k :: 0 <= k < |inputs| ==> inputs[k].Tick?) && |inputs| >= QueueTicks(old(d.queue)) ==>
              d.queue == []
  {
    hide Visited, SendsSound, JobInv, WrapAll, Backlog, TickJob, QueueInv, QueueTicks, ChunkEnd;
    ghost var before := Visited(d.log) + Backlog(d.queue);
    assert before + [] == before;
    for i := 0 to |inputs|
      invariant d.Valid() && SendsSound(d.log)
      invariant Visited(d.log) + Backlog(d.queue) == before + Offered(inputs[..i])
      invariant (forall k :: 0 <= k < i ==> inputs[k].Tick?) ==>
                  d.queue == [] || QueueTicks(d.queue) + i <= QueueTicks(old(d.queue))
    {
      assert inputs[..i + 1][..i] == inputs[..i];
      match inputs[i] {
        case Offer(targets) =>
          BacklogGrows(d.queue, targets);
          assert Visited(d.log) + (Backlog(d.queue) + targets) == Visited(d.log) + Backlog(d.queue) + targets;
          assert before + (Offered(inputs[..i]) + targets) == before + Offered(inputs[..i]) + targets;
          d.Enqueue(targets);
        case Tick(olm, ok) =>
          if d.queue != [] {
            FrontInside(d.queue);
            ghost var job, w := d.queue[0], Wrapping(d.sessions, []);
            ghost var chunk := job.targets[job.next..ChunkEnd(job)];
            WrapSize(w, chunk, olm);
            TickDrains(d.queue, d.log, WrapAll(w, chunk, olm).payloads, ok);
          }
          d.ProcessDistribution(Some(olm), ok);
      }
    }
    assert inputs[..|inputs|] == inputs;
    if d.queue != [] {
      TicksRemain(d.queue);
    }
  }

  /** Offering a job puts its targets behind all others. */
  lemma {:induction false} BacklogGrows(queue: seq<PendingDist>, targets: seq<Target>)
    requires QueueInv(queue)
    ensures var q := queue + if targets == [] then [] else [PendingDist(targets, 0, [], 0)];
            QueueInv(q) && Backlog(q) == Backlog(queue) + targets
    decreases |queue|
  {
    if targets == [] {
      assert queue + [] == queue;
    } else {
      var job := PendingDist(targets, 0, [], 0);
      if queue == [] {
        assert [job][1..] == [] && targets[0..] == targets;
      } else {
        BacklogGrows(queue[1..], targets);
        assert (queue + [job])[1..] == queue[1..] + [job];
      }
    }
  }

  lemma TicksRemain(queue: seq<PendingDist>)
    requires QueueInv(queue) && queue != []
    ensures QueueTicks(queue) >= 1
  {
  }
}
