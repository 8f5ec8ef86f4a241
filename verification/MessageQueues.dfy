/** The message log with its one-shot listeners (src/message_queue.rs). */
module MessageQueues {

  /** A registered listener. `ticket` names the one-shot channel it answers on. */
  datatype Listener = Listener(ticket: nat, cursor: nat)

  /** An answer: the log length and the messages after the listener's cursor. */
  datatype Answer<T> = Answer(cursor: nat, messages: seq<T>)

  predicate IsReady(length: nat, l: Listener) {
    l.cursor < length
  }

  function Remaining(length: nat, ls: seq<Listener>): (r: seq<Listener>)
    ensures forall l :: l in r <==> l in ls && !IsReady(length, l)
  {
    if ls == [] then []
    else (if IsReady(length, ls[0]) then [] else [ls[0]]) + Remaining(length, ls[1..])
  }

  function Fire<T>(log: seq<T>, l: Listener, answers: map<nat, Answer<T>>): (r: map<nat, Answer<T>>) {
    if IsReady(|log|, l) then answers[l.ticket := Answer(|log|, log[l.cursor..])] else answers
  }

  /** The answers once every ready listener has fired, in order. */
  function FireAll<T>(log: seq<T>, ls: seq<Listener>, answers: map<nat, Answer<T>>): (r: map<nat, Answer<T>>)
    decreases |ls|
  {
    if ls == [] then answers else FireAll(log, ls[1..], Fire(log, ls[0], answers))
  }

  ghost predicate DistinctTickets(ls: seq<Listener>) {
    forall i, j :: 0 <= i < j < |ls| ==> ls[i].ticket != ls[j].ticket
  }

  lemma {:induction false} RemainingDistinct(length: nat, ls: seq<Listener>)
    requires DistinctTickets(ls)
    ensures DistinctTickets(Remaining(length, ls))
  {
    if ls != [] {
      RemainingDistinct(length, ls[1..]);
      var r := Remaining(length, ls[1..]);
      forall i | 0 <= i < |r| ensures r[i].ticket != ls[0].ticket {
        assert r[i] in ls[1..];
      }
    }
  }

  /** Exactly the ready listeners are answered, each with the log after its cursor;
      other channels keep what they had. */
  lemma {:induction false} FireAllAnswers<T>(log: seq<T>, ls: seq<Listener>, answers: map<nat, Answer<T>>)
    requires DistinctTickets(ls)
    ensures var r := FireAll(log, ls, answers);
      && (forall l :: l in ls && IsReady(|log|, l) ==> l.ticket in r && r[l.ticket] == Answer(|log|, log[l.cursor..]))
      && (forall k :: (forall l :: l in ls && IsReady(|log|, l) ==> l.ticket != k) ==>
            (k in r <==> k in answers) && (k in r ==> r[k] == answers[k]))
    decreases |ls|
  {
    if ls != [] {
      var rest := ls[1..];
      var mid := Fire(log, ls[0], answers);
      FireAllAnswers(log, rest, mid);
      forall l | l in rest ensures l in ls && l.ticket != ls[0].ticket {
        var i :| 0 <= i < |rest| && rest[i] == l;
        assert ls[i + 1] == l;
      }
      assert forall l :: l in ls ==> l == ls[0] || l in rest;
    }
  }

  /** The loop that drains the listeners: the ready ones fire, the others are kept. */
  method DrainListeners<T>(log: seq<T>, ls: seq<Listener>, sent: map<nat, Answer<T>>)
    returns (remaining: seq<Listener>, answers: map<nat, Answer<T>>)
    ensures remaining == Remaining(|log|, ls)
    ensures answers == FireAll(log, ls, sent)
  {
    remaining, answers := [], sent;
    var todo := ls;
    while todo != []
      invariant remaining + Remaining(|log|, todo) == Remaining(|log|, ls)
      invariant FireAll(log, todo, answers) == FireAll(log, ls, sent)
      decreases |todo|
    {
      var listener := todo[0];
      todo := todo[1..];
      ghost var kept := Remaining(|log|, todo);
      if listener.cursor < |log| {
        assert [] + kept == kept;
        answers := answers[listener.ticket := Answer(|log|, log[listener.cursor..])];
      } else {
        assert remaining + ([listener] + kept) == (remaining + [listener]) + kept;
        remaining := remaining + [listener];
      }
    }
  }

  class MessageQueue<T> {
    var messages: seq<T>
    var listeners: seq<Listener>
    /** What has been sent on the one-shot channels, by ticket. */
    var answers: map<nat, Answer<T>>
    var tickets: nat

    ghost predicate Valid()
      reads this
    {
      && DistinctTickets(listeners)
      && (forall l :: l in listeners ==> l.ticket < tickets && l.ticket !in answers)
      && (forall k :: k in answers ==> k < tickets)
    }

    constructor ()
      ensures Valid() && messages == [] && listeners == [] && answers == map[]
    {
      messages, listeners, answers, tickets := [], [], map[], 0;
    }

    method Cursor() returns (c: nat)
      ensures c == |messages|
    {
      c := |messages|;
    }

    /** Appends, then fires every listener the log has outgrown. Afterwards every
        remaining listener is at or past the end of the log, and no channel that was
        answered before is answered again. */
    method PushMessages(new_: seq<T>)
      requires Valid()
      modifies this
      ensures Valid()
      ensures messages == old(messages) + new_ && tickets == old(tickets)
      ensures listeners == Remaining(|messages|, old(listeners))
      ensures forall l :: l in listeners ==> l.cursor >= |messages|
      ensures answers == FireAll(messages, old(listeners), old(answers))
      ensures forall l :: l in old(listeners) && l.cursor < |messages| ==>
        l.ticket !in old(answers) && l.ticket in answers
          && answers[l.ticket] == Answer(|messages|, messages[l.cursor..])
      ensures forall k :: k in old(answers) ==> k in answers && answers[k] == old(answers)[k]
    {
      messages := messages + new_;
      ghost var all, sent := listeners, answers;
      listeners, answers := DrainListeners(messages, listeners, answers);
      FireAllAnswers(messages, all, sent);
      RemainingDistinct(|messages|, all);
      AnswersStayApart(messages, all, sent, tickets);
    }

    /** No remaining listener has been answered. */
    lemma AnswersStayApart(log: seq<T>, ls: seq<Listener>, sent: map<nat, Answer<T>>, bound: nat)
      requires DistinctTickets(ls)
      requires forall l :: l in ls ==> l.ticket < bound && l.ticket !in sent
      requires forall k :: k in sent ==> k < bound
      ensures forall l :: l in Remaining(|log|, ls) ==> l.ticket !in FireAll(log, ls, sent)
      ensures forall k :: k in FireAll(log, ls, sent) ==> k < bound
    {
      FireAllAnswers(log, ls, sent);
      forall l | l in Remaining(|log|, ls) ensures l.ticket !in FireAll(log, ls, sent) {
        forall m | m in ls && IsReady(|log|, m) ensures m.ticket != l.ticket {
          var i :| 0 <= i < |ls| && ls[i] == m;
          var j :| 0 <= j < |ls| && ls[j] == l;
          assert i != j;
        }
      }
      forall k | k in FireAll(log, ls, sent) ensures k < bound {
        assert k !in sent ==> exists l :: l in ls && IsReady(|log|, l) && l.ticket == k;
      }
    }

    /** Answers at once when the log is already past the cursor, and registers the
        listener otherwise. */
    method Subscribe(cursor: nat) returns (ticket: nat)
      requires Valid()
      modifies this
      ensures Valid()
      ensures ticket == old(tickets) && tickets == ticket + 1 && messages == old(messages)
      ensures if cursor < |messages|
              then listeners == old(listeners)
                && answers == old(answers)[ticket := Answer(|messages|, messages[cursor..])]
              else listeners == old(listeners) + [Listener(ticket, cursor)] && answers == old(answers)
    {
      ticket := tickets;
      tickets := tickets + 1;
      if cursor < |messages| {
        answers := answers[ticket := Answer(|messages|, messages[cursor..])];
      } else {
        listeners := listeners + [Listener(ticket, cursor)];
      }
    }
  }
}
