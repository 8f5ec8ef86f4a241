/** The live-sync protocol: one writer that mutates the tree under its lock and
    pushes afterwards, readers that take the cursor and then the tree, subscribers
    that loop on a cursor. Steps are split where the locks are taken and released
    (src/change_processor.rs, src/web/api.rs, src/message_queue.rs). */
module LiveSync {
  import opened MessageQueues

  /** Between mutating the tree and pushing, the writer holds the batch alone. */
  datatype Writer<P> = Idle | Pending(batch: seq<P>)

  /** A read has its cursor first, and later the patches its tree contained. */
  datatype Reader<P> = Took(cursor: nat) | Read(cursor: nat, view: seq<P>)

  /** `Checked` lies between looking at the log and registering the listener. */
  datatype Phase<P> = Ready | Checked(ticket: nat) | Waiting(ticket: nat) | Got(answer: Answer<P>) | Closed

  /** `since` is how many patches the tree had when the socket was opened, and
      `composed` how many it had when each of the patches sent was made a message. */
  datatype Subscriber<P> = Subscriber(
    input: nat,
    cursor: nat,
    sent: seq<P>,
    since: nat,
    composed: seq<nat>,
    phase: Phase<P>)

  /** `applied` lists the patches the tree contains, `log` those pushed. */
  datatype System<P> = System(
    applied: seq<P>,
    log: seq<P>,
    writer: Writer<P>,
    listeners: seq<Listener>,
    answers: map<nat, Answer<P>>,
    tickets: nat,
    readers: map<nat, Reader<P>>,
    subscribers: map<nat, Subscriber<P>>)

  datatype Step<P> =
    | Mutate(batch: seq<P>)
    | Push
    | TakeCursor(r: nat)
    | ReadTree(r: nat)
    | Open(s: nat, input: nat)
    | Check(s: nat)
    | Register(s: nat)
    | Receive(s: nat)
    | Send(s: nat)
    | Interrupt(s: nat)
    | Close(s: nat)

  function Start<P>(): (y: System<P>) {
    System([], [], Idle, [], map[], 0, map[], map[])
  }

  predicate Enabled<P(==)>(y: System<P>, e: Step<P>) {
    match e
    case Mutate(_) => y.writer.Idle?
    case Push => y.writer.Pending?
    case TakeCursor(r) => r !in y.readers
    case ReadTree(r) => r in y.readers && y.readers[r].Took?
    case Open(s, _) => s !in y.subscribers
    case Check(s) => s in y.subscribers && y.subscribers[s].phase.Ready?
    case Register(s) => s in y.subscribers && y.subscribers[s].phase.Checked?
    case Receive(s) => s in y.subscribers && y.subscribers[s].phase.Waiting?
      && y.subscribers[s].phase.ticket in y.answers
    case Send(s) => s in y.subscribers && y.subscribers[s].phase.Got?
    case Interrupt(s) => s in y.subscribers && y.subscribers[s].phase.Waiting?
    case Close(s) => s in y.subscribers
  }

  function WithSubscriber<P>(y: System<P>, s: nat, b: Subscriber<P>): (r: System<P>) {
    y.(subscribers := y.subscribers[s := b])
  }

  function Next<P>(y: System<P>, e: Step<P>): (r: System<P>)
    requires Enabled(y, e)
  {
    match e
    case Mutate(batch) => y.(applied := y.applied + batch, writer := Pending(batch))
    case Push =>
      var log := y.log + y.writer.batch;
      y.(log := log, writer := Idle, listeners := Remaining(|log|, y.listeners),
        answers := FireAll(log, y.listeners, y.answers))
    case TakeCursor(r) => y.(readers := y.readers[r := Took(|y.log|)])
    case ReadTree(r) => y.(readers := y.readers[r := Read(y.readers[r].cursor, y.applied)])
    case Open(s, input) => WithSubscriber(y, s, Subscriber(input, input, [], |y.applied|, [], Ready))
    case Check(s) =>
      var b, k := y.subscribers[s], y.tickets;
      if b.cursor < |y.log| then
        WithSubscriber(y, s, b.(phase := Waiting(k))).(
          tickets := k + 1,
          answers := y.answers[k := Answer(|y.log|, y.log[b.cursor..])])
      else WithSubscriber(y, s, b.(phase := Checked(k))).(tickets := k + 1)
    case Register(s) =>
      var b := y.subscribers[s];
      WithSubscriber(y, s, b.(phase := Waiting(b.phase.ticket))).(
        listeners := y.listeners + [Listener(b.phase.ticket, b.cursor)])
    case Receive(s) =>
      var b := y.subscribers[s];
      WithSubscriber(y, s, b.(phase := Got(y.answers[b.phase.ticket])))
    case Send(s) =>
      var b := y.subscribers[s];
      var a := b.phase.answer;
      WithSubscriber(y, s, if a.messages == [] then b.(phase := Ready)
                           else b.(phase := Ready, cursor := a.cursor, sent := b.sent + a.messages,
                                   composed := b.composed + seq(|a.messages|, _ => |y.applied|)))
    case Interrupt(s) => WithSubscriber(y, s, y.subscribers[s].(phase := Ready))
    case Close(s) => WithSubscriber(y, s, y.subscribers[s].(phase := Closed))
  }

  // ----- the invariant -----

  ghost predicate AnswerOk<P>(log: seq<P>, a: Answer<P>, cursor: nat) {
    cursor < a.cursor <= |log| && a.messages == log[cursor..a.cursor]
  }

  /** The tree is the log plus what the writer still holds. */
  ghost predicate FlowOk<P>(y: System<P>) {
    y.applied == if y.writer.Pending? then y.log + y.writer.batch else y.log
  }

  ghost predicate ReaderOk<P>(y: System<P>, d: Reader<P>) {
    d.cursor <= |y.log| && (d.Read? ==> y.log[..d.cursor] <= d.view <= y.applied)
  }

  ghost predicate QueueOk<P>(y: System<P>) {
    && DistinctTickets(y.listeners)
    && (forall l :: l in y.listeners ==> l.ticket < y.tickets && l.ticket !in y.answers)
    && (forall k :: k in y.answers ==> k < y.tickets)
  }

  /** What has been sent is the log from the input cursor to the current one. */
  ghost predicate SentOk<P>(log: seq<P>, b: Subscriber<P>) {
    (b.cursor == b.input && b.sent == []) ||
    (b.input <= b.cursor <= |log| && b.sent == log[b.input..b.cursor])
  }

  ghost predicate PhaseOk<P>(y: System<P>, b: Subscriber<P>) {
    match b.phase
    case Checked(k) => k < y.tickets && k !in y.answers && forall l :: l in y.listeners ==> l.ticket != k
    case Waiting(k) =>
      k < y.tickets && if k in y.answers then AnswerOk(y.log, y.answers[k], b.cursor)
        else Listener(k, b.cursor) in y.listeners
    case Got(a) => AnswerOk(y.log, a, b.cursor)
    case _ => true
  }

  ghost predicate HasTicket<P>(b: Subscriber<P>, k: nat) {
    (b.phase.Checked? || b.phase.Waiting?) && b.phase.ticket == k
  }

  ghost predicate TicketsApart<P>(y: System<P>) {
    forall s, u, k ::
      s in y.subscribers && u in y.subscribers && HasTicket(y.subscribers[s], k) && HasTicket(y.subscribers[u], k)
      ==> s == u
  }

  /** Every message was composed after the socket was opened, from a tree that had its
      patch. */
  ghost predicate ComposedOk<P>(applied: seq<P>, b: Subscriber<P>) {
    && |b.composed| == |b.sent| && b.since <= |applied|
    && forall k :: 0 <= k < |b.composed| ==> b.since <= b.composed[k] <= |applied| && b.input + k < b.composed[k]
  }

  ghost predicate QueueInv<P>(y: System<P>) {
    && FlowOk(y) && QueueOk(y) && TicketsApart(y)
    && (forall r :: r in y.readers ==> ReaderOk(y, y.readers[r]))
    && (forall s :: s in y.subscribers ==> SentOk(y.log, y.subscribers[s]) && PhaseOk(y, y.subscribers[s]))
  }

  ghost predicate Inv<P>(y: System<P>) {
    QueueInv(y) && forall s :: s in y.subscribers ==> ComposedOk(y.applied, y.subscribers[s])
  }

  lemma StartInv<P>()
    ensures Inv(Start<P>())
  {
  }

  /** A longer log keeps every answer and every sent stretch right. */
  lemma LogGrows<P>(log: seq<P>, more: seq<P>, b: Subscriber<P>)
    ensures SentOk(log, b) ==> SentOk(log + more, b)
    ensures forall a, c: nat :: AnswerOk(log, a, c) ==> AnswerOk(log + more, a, c)
  {
    assert b.input <= b.cursor <= |log| ==> (log + more)[b.input..b.cursor] == log[b.input..b.cursor];
    forall a: Answer<P>, c: nat | AnswerOk(log, a, c) ensures AnswerOk(log + more, a, c) {
      assert (log + more)[c..a.cursor] == log[c..a.cursor];
    }
  }

  /** After a push, each phase is still right: the ready waiting ones are answered. */
  lemma PushPhase<P>(y: System<P>, b: Subscriber<P>)
    requires QueueOk(y) && y.writer.Pending? && PhaseOk(y, b)
    ensures PhaseOk(Next(y, Push), b)
  {
    var z := Next(y, Push);
    LogGrows(y.log, y.writer.batch, b);
    FireAllAnswers(z.log, y.listeners, y.answers);
    match b.phase
    case Waiting(k) =>
      if k in y.answers {
        assert forall l :: l in y.listeners ==> l.ticket != k;
      } else {
        var own := Listener(k, b.cursor);
        if IsReady(|z.log|, own) {
          assert z.log[b.cursor..] == z.log[b.cursor..|z.log|];
        } else {
          forall l | l in y.listeners && IsReady(|z.log|, l) ensures l.ticket != k {
            var i :| 0 <= i < |y.listeners| && y.listeners[i] == l;
            var j :| 0 <= j < |y.listeners| && y.listeners[j] == own;
            assert i != j;
          }
        }
      }
    case _ =>
  }

  lemma PushInv<P>(y: System<P>)
    requires QueueInv(y) && y.writer.Pending?
    ensures QueueInv(Next(y, Push))
  {
    var z := Next(y, Push);
    RemainingDistinct(|z.log|, y.listeners);
    PushQueue(y);
    forall r | r in z.readers ensures ReaderOk(z, z.readers[r]) {
      assert ReaderOk(y, y.readers[r]);
      assert z.log[..z.readers[r].cursor] == y.log[..z.readers[r].cursor];
    }
    forall s | s in z.subscribers ensures SentOk(z.log, z.subscribers[s]) && PhaseOk(z, z.subscribers[s]) {
      LogGrows(y.log, y.writer.batch, y.subscribers[s]);
      PushPhase(y, y.subscribers[s]);
    }
  }

  lemma PushQueue<P>(y: System<P>)
    requires QueueOk(y) && y.writer.Pending?
    ensures QueueOk(Next(y, Push))
  {
    var z := Next(y, Push);
    RemainingDistinct(|z.log|, y.listeners);
    FireAllAnswers(z.log, y.listeners, y.answers);
    forall l | l in z.listeners ensures l.ticket < z.tickets && l.ticket !in z.answers {
      forall m | m in y.listeners && IsReady(|z.log|, m) ensures m.ticket != l.ticket {
        var i :| 0 <= i < |y.listeners| && y.listeners[i] == m;
        var j :| 0 <= j < |y.listeners| && y.listeners[j] == l;
        assert i != j;
      }
    }
    forall k | k in z.answers ensures k < z.tickets {
      assert k !in y.answers ==> exists l :: l in y.listeners && IsReady(|z.log|, l) && l.ticket == k;
    }
  }

  lemma CheckPhase<P>(y: System<P>, s: nat, u: nat)
    requires QueueOk(y) && Enabled(y, Check(s)) && u in y.subscribers && PhaseOk(y, y.subscribers[u])
    ensures var z := Next(y, Check(s)); u in z.subscribers && PhaseOk(z, z.subscribers[u])
  {
    var c := y.subscribers[s].cursor;
    assert c < |y.log| ==> y.log[c..] == y.log[c..|y.log|];
  }

  lemma CheckInv<P>(y: System<P>, s: nat)
    requires QueueInv(y) && Enabled(y, Check(s))
    ensures QueueInv(Next(y, Check(s)))
  {
    var z := Next(y, Check(s));
    var b := y.subscribers[s];
    forall u | u in z.subscribers ensures SentOk(z.log, z.subscribers[u]) && PhaseOk(z, z.subscribers[u]) {
      assert SentOk(y.log, y.subscribers[u]) && PhaseOk(y, y.subscribers[u]);
      CheckPhase(y, s, u);
    }
    forall r | r in z.readers ensures ReaderOk(z, z.readers[r]) { assert ReaderOk(y, y.readers[r]); }
    forall u, v, k | u in z.subscribers && v in z.subscribers && HasTicket(z.subscribers[u], k)
      && HasTicket(z.subscribers[v], k)
      ensures u == v
    {
      assert PhaseOk(y, y.subscribers[u]) && PhaseOk(y, y.subscribers[v]);
      assert u != s ==> HasTicket(y.subscribers[u], k);
      assert v != s ==> HasTicket(y.subscribers[v], k);
    }
  }

  lemma RegisterInv<P>(y: System<P>, s: nat)
    requires QueueInv(y) && Enabled(y, Register(s))
    ensures QueueInv(Next(y, Register(s)))
  {
    var z := Next(y, Register(s));
    var b := y.subscribers[s];
    assert PhaseOk(y, b);
    assert HasTicket(b, b.phase.ticket);
    forall u | u in z.subscribers ensures SentOk(z.log, z.subscribers[u]) && PhaseOk(z, z.subscribers[u]) {
      assert SentOk(y.log, y.subscribers[u]) && PhaseOk(y, y.subscribers[u]);
      if u != s && y.subscribers[u].phase.Checked? {
        assert HasTicket(y.subscribers[u], y.subscribers[u].phase.ticket);
      }
    }
    forall r | r in z.readers ensures ReaderOk(z, z.readers[r]) { assert ReaderOk(y, y.readers[r]); }
    forall u, v, k | u in z.subscribers && v in z.subscribers && HasTicket(z.subscribers[u], k)
      && HasTicket(z.subscribers[v], k)
      ensures u == v
    {
      assert HasTicket(y.subscribers[u], k) && HasTicket(y.subscribers[v], k);
    }
  }

  lemma OwnStep<P>(y: System<P>, e: Step<P>, b: Subscriber<P>)
    requires Enabled(y, e) && (e.Receive? || e.Send? || e.Interrupt? || e.Close?)
    requires b == y.subscribers[e.s] && SentOk(y.log, b) && PhaseOk(y, b)
    ensures var z := Next(y, e); SentOk(z.log, z.subscribers[e.s]) && PhaseOk(z, z.subscribers[e.s])
  {
    if e.Send? {
      var a := b.phase.answer;
      assert b.input <= b.cursor ==> y.log[b.input..b.cursor] + y.log[b.cursor..a.cursor] == y.log[b.input..a.cursor];
    }
  }

  /** The steps that only move one subscriber on. */
  lemma SubscriberInv<P>(y: System<P>, e: Step<P>)
    requires QueueInv(y) && Enabled(y, e)
    requires e.Open? || e.Receive? || e.Send? || e.Interrupt? || e.Close?
    ensures QueueInv(Next(y, e))
  {
    var z := Next(y, e);
    var s := e.s;
    forall u | u in z.subscribers ensures SentOk(z.log, z.subscribers[u]) && PhaseOk(z, z.subscribers[u]) {
      assert u in y.subscribers ==> SentOk(y.log, y.subscribers[u]) && PhaseOk(y, y.subscribers[u]);
      if u == s && !e.Open? { OwnStep(y, e, y.subscribers[s]); }
    }
    forall r | r in z.readers ensures ReaderOk(z, z.readers[r]) { assert ReaderOk(y, y.readers[r]); }
    TicketsStay(y, e);
  }

  lemma TicketsStay<P>(y: System<P>, e: Step<P>)
    requires TicketsApart(y) && Enabled(y, e)
    requires e.Open? || e.Receive? || e.Send? || e.Interrupt? || e.Close?
    ensures TicketsApart(Next(y, e))
  {
    var z := Next(y, e);
    forall u, v, k | u in z.subscribers && v in z.subscribers && HasTicket(z.subscribers[u], k)
      && HasTicket(z.subscribers[v], k)
      ensures u == v
    {
      assert u != e.s && v != e.s && HasTicket(y.subscribers[u], k) && HasTicket(y.subscribers[v], k);
    }
  }

  lemma TreeInv<P>(y: System<P>, e: Step<P>)
    requires QueueInv(y) && Enabled(y, e)
    requires e.Mutate? || e.TakeCursor? || e.ReadTree?
    ensures QueueInv(Next(y, e))
  {
    var z := Next(y, e);
    forall u | u in z.subscribers ensures SentOk(z.log, z.subscribers[u]) && PhaseOk(z, z.subscribers[u]) {
      assert SentOk(y.log, y.subscribers[u]) && PhaseOk(y, y.subscribers[u]);
    }
    forall r | r in z.readers ensures ReaderOk(z, z.readers[r]) {
      if r in y.readers { assert ReaderOk(y, y.readers[r]); }
    }
    forall u, v, k | u in z.subscribers && v in z.subscribers && HasTicket(z.subscribers[u], k)
      && HasTicket(z.subscribers[v], k)
      ensures u == v
    {
      assert HasTicket(y.subscribers[u], k) && HasTicket(y.subscribers[v], k);
    }
  }

  lemma NextComposed<P>(y: System<P>, e: Step<P>, s: nat)
    requires Inv(y) && Enabled(y, e) && s in Next(y, e).subscribers
    ensures ComposedOk(Next(y, e).applied, Next(y, e).subscribers[s])
  {
    if s in y.subscribers {
      var b := y.subscribers[s];
      assert ComposedOk(y.applied, b) && SentOk(y.log, b) && PhaseOk(y, b);
      if e == Send(s) {
        SendComposed(y, s);
      } else if e.Mutate? {
        assert |y.applied| <= |Next(y, e).applied|;
      }
    }
  }

  /** Sending composes what is sent from the tree as it is. */
  lemma SendComposed<P>(y: System<P>, s: nat)
    requires FlowOk(y) && Enabled(y, Send(s)) && ComposedOk(y.applied, y.subscribers[s])
    requires SentOk(y.log, y.subscribers[s]) && PhaseOk(y, y.subscribers[s])
    ensures ComposedOk(y.applied, Next(y, Send(s)).subscribers[s])
  {
    var b, c := y.subscribers[s], Next(y, Send(s)).subscribers[s];
    var n := |b.composed|;
    forall k | 0 <= k < |c.composed| ensures b.since <= c.composed[k] <= |y.applied| && b.input + k < c.composed[k] {
      if k < n { assert c.composed[k] == b.composed[k]; } else { assert c.composed[k] == |y.applied|; }
    }
  }

  /** Every step of writer, readers and subscribers keeps the invariant. */
  lemma NextInv<P>(y: System<P>, e: Step<P>)
    requires Inv(y) && Enabled(y, e)
    ensures Inv(Next(y, e))
  {
    forall s | s in Next(y, e).subscribers ensures ComposedOk(Next(y, e).applied, Next(y, e).subscribers[s]) {
      NextComposed(y, e, s);
    }
    match e
    case Push => PushInv(y);
    case Check(s) => CheckInv(y, s);
    case Register(s) => RegisterInv(y, s);
    case Mutate(_) => TreeInv(y, e);
    case TakeCursor(_) => TreeInv(y, e);
    case ReadTree(_) => TreeInv(y, e);
    case _ => SubscriberInv(y, e);
  }

  // ----- whole runs -----

  ghost predicate Runs<P>(y: System<P>, steps: seq<Step<P>>)
    decreases |steps|
  {
    steps == [] || (Enabled(y, steps[0]) && Runs(Next(y, steps[0]), steps[1..]))
  }

  ghost function After<P>(y: System<P>, steps: seq<Step<P>>): (z: System<P>)
    requires Runs(y, steps)
    decreases |steps|
  {
    if steps == [] then y else After(Next(y, steps[0]), steps[1..])
  }

  lemma {:induction false} RunInv<P>(y: System<P>, steps: seq<Step<P>>)
    requires Inv(y) && Runs(y, steps)
    ensures Inv(After(y, steps))
    decreases |steps|
  {
    if steps != [] {
      NextInv(y, steps[0]);
      RunInv(Next(y, steps[0]), steps[1..]);
    }
  }

  /** Never behind the cursor, and no gap, repeat or reordering. In every run: a
      finished read holds at least the patches before its cursor, and only patches
      the tree has; a subscriber has been sent exactly the log from its input to its
      cursor. So a client that subscribes with the cursor of its read has seen, in
      the tree or in a batch, every patch up to where it stands. */
  lemma ClientsSeeEverything<P>(steps: seq<Step<P>>, r: nat, s: nat)
    requires Runs(Start<P>(), steps)
    requires var y := After(Start<P>(), steps);
      r in y.readers && y.readers[r].Read? && s in y.subscribers && y.subscribers[s].input == y.readers[r].cursor
    ensures var y := After(Start<P>(), steps); var d := y.readers[r]; var b := y.subscribers[s];
      && d.cursor <= b.cursor <= |y.log|
      && y.log[..d.cursor] <= d.view <= y.applied
      && b.sent == y.log[d.cursor..b.cursor]
      && y.log[..b.cursor] == y.log[..d.cursor] + b.sent
  {
    StartInv<P>();
    RunInv(Start<P>(), steps);
    var y := After(Start<P>(), steps);
    assert ReaderOk(y, y.readers[r]) && SentOk(y.log, y.subscribers[s]);
  }

  /** Any subscriber, whatever cursor it started from, even past the end of the log. */
  lemma SentIsTheLog<P>(steps: seq<Step<P>>, s: nat)
    requires Runs(Start<P>(), steps) && s in After(Start<P>(), steps).subscribers
    ensures var y := After(Start<P>(), steps); var b := y.subscribers[s];
      if b.cursor == b.input then b.sent == []
      else b.input < b.cursor <= |y.log| && b.sent == y.log[b.input..b.cursor]
  {
    StartInv<P>();
    RunInv(Start<P>(), steps);
    var y := After(Start<P>(), steps);
    assert SentOk(y.log, y.subscribers[s]);
  }

  // ----- listener service -----

  /** All batches of a run, in the order in which the writer applied them. */
  function Batches<P>(steps: seq<Step<P>>): (r: seq<P>) {
    if steps == [] then [] else (if steps[0].Mutate? then steps[0].batch else []) + Batches(steps[1..])
  }

  /** Nothing is lost. The tree has all batches, and the log all but the one that the
      writer has not pushed yet. */
  lemma NothingIsLost<P>(steps: seq<Step<P>>)
    requires Runs(Start<P>(), steps)
    ensures var y := After(Start<P>(), steps);
      && y.applied == Batches(steps)
      && y.log + (if y.writer.Pending? then y.writer.batch else []) == Batches(steps)
  {
    StartInv<P>();
    RunInv(Start<P>(), steps);
    RunMutates(Start<P>(), steps);
    assert [] + Batches(steps) == Batches(steps);
  }

  lemma {:induction false} RunMutates<P>(y: System<P>, steps: seq<Step<P>>)
    requires Runs(y, steps)
    ensures After(y, steps).applied == y.applied + Batches(steps)
    decreases |steps|
  {
    if steps != [] {
      var own := if steps[0].Mutate? then steps[0].batch else [];
      RunMutates(Next(y, steps[0]), steps[1..]);
      assert Next(y, steps[0]).applied == y.applied + own;
      assert (y.applied + own) + Batches(steps[1..]) == y.applied + (own + Batches(steps[1..]));
    }
  }

  /** What a read has is what the tree held at that step, for the rest of the run. */
  lemma ReadHasTheTree<P>(before: seq<Step<P>>, r: nat, later: seq<Step<P>>)
    requires Runs(Start<P>(), before) && Enabled(After(Start<P>(), before), ReadTree(r))
    requires Runs(Next(After(Start<P>(), before), ReadTree(r)), later)
    ensures var z := After(Next(After(Start<P>(), before), ReadTree(r)), later);
      r in z.readers && z.readers[r].Read? && z.readers[r].view == Batches(before)
  {
    NothingIsLost(before);
    ReadersStay(Next(After(Start<P>(), before), ReadTree(r)), later, r);
  }

  /** What it has as its cursor is how much had been pushed when it took it. */
  lemma CursorIsTheLog<P>(before: seq<Step<P>>, r: nat, later: seq<Step<P>>)
    requires Runs(Start<P>(), before) && Enabled(After(Start<P>(), before), TakeCursor(r))
    requires Runs(Next(After(Start<P>(), before), TakeCursor(r)), later)
    ensures var z := After(Next(After(Start<P>(), before), TakeCursor(r)), later);
      r in z.readers && z.readers[r].cursor == |After(Start<P>(), before).log|
  {
    ReadersStay(Next(After(Start<P>(), before), TakeCursor(r)), later, r);
  }

  lemma {:induction false} ReadersStay<P>(y: System<P>, steps: seq<Step<P>>, r: nat)
    requires Runs(y, steps) && r in y.readers
    ensures var z := After(y, steps);
      && r in z.readers && z.readers[r].cursor == y.readers[r].cursor
      && (y.readers[r].Read? ==> z.readers[r] == y.readers[r])
    decreases |steps|
  {
    if steps != [] { ReadersStay(Next(y, steps[0]), steps[1..], r); }
  }

  /** The subscriber stands at the end of the log, having been sent what it lacked. */
  predicate CaughtUp<P(==)>(z: System<P>, s: nat, b: Subscriber<P>) {
    && s in z.subscribers && z.subscribers[s].phase.Ready? && b.cursor <= |z.log|
    && z.subscribers[s].cursor == |z.log| && z.subscribers[s].sent == b.sent + z.log[b.cursor..]
  }

  /** A subscriber that is behind can go on at any time, and is then sent all it lacks. */
  lemma CatchesUp<P>(y: System<P>, s: nat)
    requires s in y.subscribers && y.subscribers[s].phase.Ready? && y.subscribers[s].cursor < |y.log|
    ensures var steps := [Check(s), Receive(s), Send(s)];
      Runs(y, steps) && CaughtUp(After(y, steps), s, y.subscribers[s])
  {
    var y1 := Next(y, Check(s));
    var y2 := Next(y1, Receive(s));
    ThreeSteps(y, Check(s), Receive(s), Send(s));
  }

  /** A subscriber that waits is served by the next push that brings something. */
  lemma WaiterIsServed<P>(y: System<P>, s: nat)
    requires Inv(y) && s in y.subscribers && y.subscribers[s].phase.Waiting? && y.writer.Pending?
    requires y.subscribers[s].phase.ticket !in y.answers
    requires y.subscribers[s].cursor < |y.log| + |y.writer.batch|
    ensures var steps := [Push, Receive(s), Send(s)];
      Runs(y, steps) && CaughtUp(After(y, steps), s, y.subscribers[s])
  {
    var b := y.subscribers[s];
    assert PhaseOk(y, b);
    var y1 := Next(y, Push);
    FireAllAnswers(y1.log, y.listeners, y.answers);
    assert Listener(b.phase.ticket, b.cursor) in y.listeners;
    var y2 := Next(y1, Receive(s));
    ThreeSteps(y, Push, Receive(s), Send(s));
  }

  lemma ThreeSteps<P>(y: System<P>, a: Step<P>, b: Step<P>, c: Step<P>)
    requires Enabled(y, a) && Enabled(Next(y, a), b) && Enabled(Next(Next(y, a), b), c)
    ensures Runs(y, [a, b, c]) && After(y, [a, b, c]) == Next(Next(Next(y, a), b), c)
  {
    assert [a, b, c][1..] == [b, c] && [b, c][1..] == [c] && [c][1..] == [];
    RunOne(Next(Next(y, a), b), [c]);
    RunOne(Next(y, a), [b, c]);
    RunOne(y, [a, b, c]);
  }

  /** After a push no listener is left that the log has outgrown. */
  lemma PushServesEveryone<P>(y: System<P>)
    requires Inv(y) && y.writer.Pending?
    ensures var z := Next(y, Push);
      && (forall l :: l in z.listeners ==> l.cursor >= |z.log|)
      && (forall s :: s in y.subscribers && y.subscribers[s].phase.Waiting? && y.subscribers[s].cursor < |z.log| ==>
            Enabled(z, Receive(s)))
      && (forall s ::
            (s in y.subscribers && y.subscribers[s].phase.Waiting? && y.subscribers[s].cursor < |z.log|
             && y.subscribers[s].phase.ticket !in y.answers) ==>
              z.answers[y.subscribers[s].phase.ticket] == Answer(|z.log|, z.log[y.subscribers[s].cursor..]))
  {
    var z := Next(y, Push);
    forall s | s in y.subscribers && y.subscribers[s].phase.Waiting? && y.subscribers[s].cursor < |z.log|
      ensures y.subscribers[s].phase.ticket in z.answers
      ensures y.subscribers[s].phase.ticket !in y.answers ==>
        z.answers[y.subscribers[s].phase.ticket] == Answer(|z.log|, z.log[y.subscribers[s].cursor..])
    {
      PushServes(y, y.subscribers[s]);
    }
  }

  lemma PushServes<P>(y: System<P>, b: Subscriber<P>)
    requires QueueOk(y) && y.writer.Pending? && PhaseOk(y, b) && b.phase.Waiting?
    requires b.cursor < |Next(y, Push).log|
    ensures var z := Next(y, Push); var k := b.phase.ticket;
      && k in z.answers
      && (k !in y.answers ==> z.answers[k] == Answer(|z.log|, z.log[b.cursor..]))
  {
    var z, k := Next(y, Push), b.phase.ticket;
    FireAllAnswers(z.log, y.listeners, y.answers);
    if k !in y.answers { assert IsReady(|z.log|, Listener(k, b.cursor)); }
  }

  /** A channel is answered once: later steps never change an answer. */
  lemma AnswersAreFinal<P>(y: System<P>, e: Step<P>, k: nat)
    requires Inv(y) && Enabled(y, e) && k in y.answers
    ensures k in Next(y, e).answers && Next(y, e).answers[k] == y.answers[k]
  {
    if e.Push? {
      FireAllAnswers(y.log + y.writer.batch, y.listeners, y.answers);
    }
  }

  // ----- late listeners -----

  /** The subscriber waits on a channel nobody has answered, although the log is
      already past its cursor. */
  predicate Stalled<P>(y: System<P>, s: nat) {
    && s in y.subscribers && y.subscribers[s].phase.Waiting?
    && y.subscribers[s].phase.ticket !in y.answers && y.subscribers[s].cursor < |y.log|
  }

  predicate EndsStall<P(==)>(e: Step<P>, s: nat) {
    e.Push? || e == Interrupt(s) || e == Close(s)
  }

  /** A subscriber is stalled after a step exactly when it has just registered behind
      the log, or was stalled and the step is no push, even an empty one, and none of
      its own that gives up waiting. */
  lemma StallsExactly<P>(y: System<P>, e: Step<P>, s: nat)
    requires Inv(y) && Enabled(y, e)
    ensures Stalled(Next(y, e), s) <==>
      (e == Register(s) && y.subscribers[s].cursor < |y.log|) || (Stalled(y, s) && !EndsStall(e, s))
  {
    match e
    case Push => PushEndsStalls(y, s);
    case Check(u) => CheckStalls(y, u, s);
    case Register(u) => if u == s { RegisterStalls(y, s); }
    case _ => OthersStall(y, e, s);
  }

  lemma PushEndsStalls<P>(y: System<P>, s: nat)
    requires Inv(y) && y.writer.Pending?
    ensures !Stalled(Next(y, Push), s)
  {
    if s in y.subscribers && y.subscribers[s].phase.Waiting? && y.subscribers[s].cursor < |Next(y, Push).log| {
      PushServes(y, y.subscribers[s]);
    }
  }

  lemma RegisterStalls<P>(y: System<P>, s: nat)
    requires Inv(y) && Enabled(y, Register(s))
    ensures Stalled(Next(y, Register(s)), s) <==> y.subscribers[s].cursor < |y.log|
    ensures !Stalled(y, s)
  {
    assert PhaseOk(y, y.subscribers[s]);
  }

  lemma CheckStalls<P>(y: System<P>, u: nat, s: nat)
    requires Inv(y) && Enabled(y, Check(u))
    ensures Stalled(Next(y, Check(u)), s) <==> Stalled(y, s)
  {
    if s in y.subscribers { assert PhaseOk(y, y.subscribers[s]); }
  }

  lemma OthersStall<P>(y: System<P>, e: Step<P>, s: nat)
    requires Inv(y) && Enabled(y, e) && !e.Push? && !e.Register? && !e.Check?
    ensures Stalled(Next(y, e), s) <==> Stalled(y, s) && !EndsStall(e, s)
  {
    if s in y.subscribers { assert PhaseOk(y, y.subscribers[s]) && SentOk(y.log, y.subscribers[s]); }
  }

  lemma {:induction false} RunLast<P>(y: System<P>, steps: seq<Step<P>>, e: Step<P>)
    requires Runs(y, steps + [e])
    ensures Runs(y, steps) && Enabled(After(y, steps), e)
    ensures After(y, steps + [e]) == Next(After(y, steps), e)
    decreases |steps|
  {
    if steps == [] {
      assert steps + [e] == [e] && [e][1..] == [];
    } else {
      assert (steps + [e])[0] == steps[0] && (steps + [e])[1..] == steps[1..] + [e];
      RunLast(Next(y, steps[0]), steps[1..], e);
    }
  }

  lemma {:induction false} RunPrefix<P>(y: System<P>, steps: seq<Step<P>>, i: nat)
    requires Runs(y, steps) && i <= |steps|
    ensures Runs(y, steps[..i])
    decreases |steps| - i
  {
    if i < |steps| {
      RunPrefix(y, steps, i + 1);
      assert steps[..i + 1] == steps[..i] + [steps[i]];
      RunLast(y, steps[..i], steps[i]);
    } else {
      assert steps[..i] == steps;
    }
  }

  /** Step `i` registered the subscriber behind the log, and no later step has ended
      the stall. */
  ghost predicate StalledSince<P>(y: System<P>, steps: seq<Step<P>>, s: nat, i: nat)
    requires Runs(y, steps)
  {
    && i < |steps| && steps[i] == Register(s)
    && (RunPrefix(y, steps, i);
        var at := After(y, steps[..i]);
        s in at.subscribers && at.subscribers[s].cursor < |at.log|)
    && forall j :: i < j < |steps| ==> !EndsStall(steps[j], s)
  }

  /** Over whole runs: a subscriber is stalled exactly when a push came between its
      look at the log and its registration, and nothing has ended the stall since. */
  lemma {:induction false} StalledExactly<P>(steps: seq<Step<P>>, s: nat)
    requires Runs(Start<P>(), steps)
    ensures Stalled(After(Start<P>(), steps), s) <==> exists i: nat :: StalledSince(Start<P>(), steps, s, i)
    decreases |steps|
  {
    var start := Start<P>();
    if steps != [] {
      var k := |steps| - 1;
      var before, e := steps[..k], steps[k];
      assert steps == before + [e];
      RunLast(start, before, e);
      StartInv<P>();
      RunInv(start, before);
      StallsExactly(After(start, before), e, s);
      StalledExactly(before, s);
      SinceLast(start, steps, s);
    }
  }

  /** The last step is the registration, or does not end an earlier stall. */
  lemma SinceLast<P>(y: System<P>, steps: seq<Step<P>>, s: nat)
    requires steps != [] && Runs(y, steps)
    requires Runs(y, steps[..|steps| - 1]) && Enabled(After(y, steps[..|steps| - 1]), steps[|steps| - 1])
    ensures var before, e := steps[..|steps| - 1], steps[|steps| - 1];
      (exists i: nat :: StalledSince(y, steps, s, i)) <==>
        (e == Register(s) && After(y, before).subscribers[s].cursor < |After(y, before).log|)
        || ((exists i: nat :: StalledSince(y, before, s, i)) && !EndsStall(e, s))
  {
    var k := |steps| - 1;
    var before, e := steps[..k], steps[k];
    forall i: nat | i < k ensures StalledSince(y, steps, s, i) <==> StalledSince(y, before, s, i) && !EndsStall(e, s) {
      assert steps[..i] == before[..i] && steps[i] == before[i];
      assert forall j :: i < j < k ==> before[j] == steps[j];
    }
    assert StalledSince(y, steps, s, k) <==>
      e == Register(s) && After(y, before).subscribers[s].cursor < |After(y, before).log|;
  }

  /** Such a run exists: a push between looking at the log and registering. */
  lemma LateListener()
    ensures exists steps: seq<Step<int>> ::
      && Runs(Start<int>(), steps)
      && After(Start<int>(), steps).writer.Idle? && Stalled(After(Start<int>(), steps), 0)
  {
    var y0 := Start<int>();
    var y1 := Next(y0, Open(0, 0));
    var y2 := Next(y1, Check(0));
    var y3 := Next(y2, Mutate([7]));
    var y4 := Next(y3, Push);
    var y5 := Next(y4, Register(0));
    var steps := [Open(0, 0), Check(0), Mutate([7]), Push, Register(0)];
    assert Remaining(1, []) == [] && FireAll([7], [], y3.answers) == map[];
    RunOne(y4, [Register(0)]);
    RunOne(y3, [Push, Register(0)]);
    RunOne(y2, [Mutate([7]), Push, Register(0)]);
    RunOne(y1, [Check(0), Mutate([7]), Push, Register(0)]);
    RunOne(y0, steps);
    assert After(y0, steps) == y5;
  }

  lemma RunOne<P>(y: System<P>, steps: seq<Step<P>>)
    requires steps != [] && Enabled(y, steps[0])
    ensures Runs(y, steps) <==> Runs(Next(y, steps[0]), steps[1..])
    ensures Runs(y, steps) ==> After(y, steps) == After(Next(y, steps[0]), steps[1..])
  {
  }
}
