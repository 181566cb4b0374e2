/**
 The popup bridge (`packages/sdk-js/src/popup.ts`): the opener's promise, the hosted page's
 wait for a request, and the two windows joined by a message channel on which any other
 window may post anything.

 The browser guarantees that `source` and `origin` of a message are those of the document
 that posted it, that a message is only delivered to a document of the named target origin,
 and that cleared timers and removed listeners do not fire.
 */
module Popup {
  import opened Bytes

  type Origin = string

  datatype Window = Opener | Child | Other(id: nat)

  /** Message data; a request whose action is not a string has none. */
  datatype Data =
    | Ready
    | Request(action: Option<string>, payload: nat, expectedPid: Option<string>)
    | Result(ok: bool, value: nat, error: string)
    | Unrelated

  datatype Message = Message(source: Window, origin: Origin, data: Data)

  datatype Ask = Ask(action: string, payload: nat, expectedPid: Option<string>)

  /** Approval ceremonies listen to the popup host; login also accepts the opener's own origin. */
  datatype Flow = Approval(ask: Ask) | Login

  datatype Setup = Setup(flow: Flow, host: Origin, self: Origin)

  predicate AcceptedOrigin(c: Setup, o: Origin) {
    o == c.host || (c.flow.Login? && o == c.self)
  }

  predicate Accepts(c: Setup, m: Message) {
    m.source == Child && AcceptedOrigin(c, m.origin)
  }

  // ---- The opener's promise ----

  datatype Outcome = Pending | Resolved(value: nat) | Denied(error: string) | Closed | Blocked

  /** Listener, timers, the `done` flag, the promise, and how often it was settled. */
  datatype Session = Session(
    done: bool,
    listening: bool,
    timer: bool,
    poll: bool,
    outcome: Outcome,
    settlements: nat)

  function Opened(): Session { Session(false, true, true, true, Pending, 0) }

  /** `PopupBlockedError`, thrown before anything is registered. */
  function NotOpened(): Session { Session(false, false, false, false, Blocked, 1) }

  /** Cancel the timers, remove the listener, settle; a promise keeps its first settlement. */
  function Finish(s: Session, o: Outcome): Session {
    Session(true, false, false, false, if s.outcome.Pending? then o else s.outcome, s.settlements + 1)
  }

  function Verdict(d: Data): Outcome
    requires d.Result?
  {
    if d.ok then Resolved(d.value) else Denied(d.error)
  }

  function Received(c: Setup, s: Session, m: Message): Session {
    if s.listening && Accepts(c, m) && m.data.Result? then Finish(s, Verdict(m.data)) else s
  }

  function Reply(c: Setup, s: Session, m: Message): Option<Data> {
    if s.listening && Accepts(c, m) && c.flow.Approval? && m.data.Ready?
    then Some(Request(Some(c.flow.ask.action), c.flow.ask.payload, c.flow.ask.expectedPid))
    else None
  }

  function TimedOut(s: Session): Session {
    if s.timer && !s.done then Finish(s, Closed) else s
  }

  function PollTick(s: Session, childClosed: bool): Session {
    if s.poll && !s.done && childClosed then Finish(s, Closed) else s
  }

  /** Either everything is registered and nothing settled, or the reverse. */
  predicate Coherent(s: Session) {
    || (!s.done && s.listening && s.timer && s.poll && s.outcome.Pending? && s.settlements == 0)
    || (!s.listening && !s.timer && !s.poll && !s.outcome.Pending? && s.settlements == 1)
  }

  /** The listener, timers and promise as the callbacks change them. */
  class OpenerPromise {
    const c: Setup
    var done: bool
    var listening: bool
    var timer: bool
    var poll: bool
    var outcome: Outcome
    var settlements: nat

    function State(): Session
      reads this
    {
      Session(done, listening, timer, poll, outcome, settlements)
    }

    /** `openPeridotPopup` and `loginFlow` up to registering the listener. */
    constructor (setup: Setup, windowOpened: bool)
      ensures c == setup && State() == (if windowOpened then Opened() else NotOpened())
    {
      c := setup;
      done, settlements, outcome := false, 0, Pending;
      listening, timer, poll := windowOpened, windowOpened, windowOpened;
      if !windowOpened {
        outcome, settlements := Blocked, 1;
      }
    }

    method Cancel()
      modifies this`done, this`timer, this`poll
      ensures done && !timer && !poll
    {
      done, timer, poll := true, false, false;
    }

    /** `resolve` or `reject`: a settled promise ignores it. */
    method Settle(o: Outcome)
      modifies this`outcome, this`settlements
      ensures outcome == if old(outcome).Pending? then o else old(outcome)
      ensures settlements == old(settlements) + 1
    {
      if outcome.Pending? {
        outcome := o;
      }
      settlements := settlements + 1;
    }

    method OnMessage(m: Message) returns (reply: Option<Data>)
      modifies this
      ensures State() == Received(c, old(State()), m)
      ensures reply == Reply(c, old(State()), m)
    {
      reply := None;
      if !listening || m.source != Child || !AcceptedOrigin(c, m.origin) {
        return;
      }
      match m.data {
        case Ready =>
          if c.flow.Approval? {
            reply := Some(Request(Some(c.flow.ask.action), c.flow.ask.payload, c.flow.ask.expectedPid));
          }
        case Result(ok, value, error) =>
          Cancel();
          listening := false;
          Settle(if ok then Resolved(value) else Denied(error));
        case _ =>
      }
    }

    method OnTimeout()
      modifies this
      ensures State() == TimedOut(old(State()))
    {
      if timer && !done {
        Cancel();
        listening := false;
        Settle(Closed);
      }
    }

    method OnPoll(childClosed: bool)
      modifies this
      ensures State() == PollTick(old(State()), childClosed)
    {
      if !poll || done || !childClosed {
        return;
      }
      Cancel();
      listening := false;
      Settle(Closed);
    }
  }

  // ---- The hosted page ----

  datatype Wait = Waiting | Got(ask: Ask) | GaveUp

  /** An expected identity is passed on only with 1 to 256 characters. */
  function CleanPid(p: Option<string>): Option<string> {
    if p.Some? && 0 < |p.value| <= 256 then p else None
  }

  function Clean(a: Ask): Ask {
    a.(expectedPid := CleanPid(a.expectedPid))
  }

  /** `awaitPopupRequest` with target origin `target` sees a message. */
  function Heard(w: Wait, target: Origin, m: Message): Wait {
    if w.Waiting? && m.source == Opener && m.origin == target && m.data.Request? && m.data.action.Some?
    then Got(Ask(m.data.action.value, m.data.payload, CleanPid(m.data.expectedPid)))
    else w
  }

  function WaitTimedOut(w: Wait): Wait {
    if w.Waiting? then GaveUp else w
  }

  /** The hosted listener and timer. */
  class RequestPromise {
    const target: Origin
    var listening: bool
    var timer: bool
    var wait: Wait

    ghost predicate Valid()
      reads this
    {
      listening == timer == wait.Waiting?
    }

    constructor (targetOrigin: Origin)
      ensures target == targetOrigin && wait == Waiting && Valid()
    {
      target := targetOrigin;
      listening, timer, wait := true, true, Waiting;
    }

    method OnMessage(m: Message)
      requires Valid()
      modifies this
      ensures Valid() && wait == Heard(old(wait), target, m)
    {
      if !listening || m.source != Opener || m.origin != target || !m.data.Request? || m.data.action.None? {
        return;
      }
      var p := m.data.expectedPid;
      var expected := if p.Some? && |p.value| > 0 && |p.value| <= 256 then p else None;
      listening, timer := false, false;
      wait := Got(Ask(m.data.action.value, m.data.payload, expected));
    }

    method OnTimeout()
      requires Valid()
      modifies this
      ensures Valid() && wait == WaitTimedOut(old(wait))
    {
      if timer {
        listening, timer, wait := false, false, GaveUp;
      }
    }
  }

  // ---- Both windows and the channel ----

  /** What the child window shows. */
  datatype Document =
    | Foreign(origin: Origin)
    /** A page of the popup host, talking to the origin in its URL. */
    | Hosted(target: Origin, wait: Wait)

  datatype Envelope = Envelope(message: Message, to: Window, targetOrigin: Option<Origin>)

  datatype World = World(
    session: Session,
    document: Document,
    childClosed: bool,
    channel: seq<Envelope>,
    /** Every result a page of the popup host, and every one a page of the opener's origin, posted from the child. */
    posted: set<Data>,
    ownPosted: set<Data>)

  datatype Event =
    /** Another window, or a foreign document in the child, posts anything anywhere. */
    | Post(sender: Window, senderOrigin: Origin, data: Data, to: Window, targetOrigin: Option<Origin>)
    | Navigate(document: Document)
    | HostedReady
    | HostedAnswer(data: Data)
    | HostedTimeout
    | CloseChild
    | Deliver(index: nat)
    | Timeout
    | Tick

  /** What the browser and the popup host's own pages rule out. */
  predicate Possible(c: Setup, w: World, e: Event) {
    match e
    case Post(sender, origin, _, _, _) =>
      sender.Other? || (sender == Child && w.document.Foreign? && origin == w.document.origin)
    case Navigate(d) => if d.Foreign? then d.origin != c.host else d.wait == Waiting
    case HostedReady => w.document.Hosted?
    case HostedAnswer(d) => w.document.Hosted? && d.Result?
    case HostedTimeout => w.document.Hosted?
    case Deliver(i) => i < |w.channel|
    case _ => true
  }

  function Remove(channel: seq<Envelope>, i: nat): seq<Envelope>
    requires i < |channel|
  {
    channel[..i] + channel[i + 1..]
  }

  /** A message reaches the document of its target window if the origin there is the named one. */
  function Dispatch(c: Setup, w: World, v: Envelope): World {
    var m := v.message;
    if v.to == Opener && (v.targetOrigin.None? || v.targetOrigin.value == c.self) then
      var reply := Reply(c, w.session, m);
      var sent := if reply.Some? then [Envelope(Message(Opener, c.self, reply.value), Child, Some(c.host))] else [];
      w.(session := Received(c, w.session, m), channel := w.channel + sent)
    else if v.to == Child && w.document.Hosted? && (v.targetOrigin.None? || v.targetOrigin.value == c.host) then
      w.(document := w.document.(wait := Heard(w.document.wait, w.document.target, m)))
    else w
  }

  function Next(c: Setup, w: World, e: Event): World
    requires Possible(c, w, e)
  {
    match e
    case Post(sender, origin, data, to, target) =>
      w.(channel := w.channel + [Envelope(Message(sender, origin, data), to, target)],
         ownPosted := if sender == Child && origin == c.self then w.ownPosted + {data} else w.ownPosted)
    case Navigate(d) => w.(document := d)
    case HostedReady =>
      w.(channel := w.channel + [Envelope(Message(Child, c.host, Ready), Opener, Some(w.document.target))])
    case HostedAnswer(data) =>
      w.(channel := w.channel + [Envelope(Message(Child, c.host, data), Opener, Some(w.document.target))],
         posted := w.posted + {data})
    case HostedTimeout => w.(document := w.document.(wait := WaitTimedOut(w.document.wait)))
    case CloseChild => w.(childClosed := true)
    case Deliver(i) => Dispatch(c, w.(channel := Remove(w.channel, i)), w.channel[i])
    case Timeout => w.(session := TimedOut(w.session))
    case Tick => w.(session := PollTick(w.session, w.childClosed))
  }

  function Start(d: Document, windowOpened: bool): World {
    World(if windowOpened then Opened() else NotOpened(), d, false, [], {}, {})
  }

  predicate ValidStart(c: Setup, d: Document) {
    if d.Foreign? then d.origin != c.host else d.wait == Waiting
  }

  /** A message in flight is what its author could have written. */
  predicate Authentic(c: Setup, v: Envelope, posted: set<Data>, ownPosted: set<Data>) {
    && (v.message.source == Opener ==>
          && c.flow.Approval?
          && v.message.origin == c.self
          && v.message.data == Request(Some(c.flow.ask.action), c.flow.ask.payload, c.flow.ask.expectedPid)
          && v.to == Child && v.targetOrigin == Some(c.host))
    && (v.message.source == Child && v.message.origin == c.host && v.message.data.Result? ==>
          v.message.data in posted)
    && (v.message.source == Child && v.message.origin == c.self && v.message.data.Result? ==>
          v.message.data in posted || v.message.data in ownPosted)
  }

  /** The opener's request as the hosted page may see it: an expected identity only of 1 to 256 characters. */
  predicate PassedOn(ask: Ask, got: Ask) {
    && got.action == ask.action && got.payload == ask.payload
    && (got.expectedPid.Some? <==> ask.expectedPid.Some? && 1 <= |ask.expectedPid.value| <= 256)
    && (got.expectedPid.Some? ==> got.expectedPid == ask.expectedPid)
  }

  ghost predicate Safe(c: Setup, w: World) {
    && Coherent(w.session)
    && (w.document.Foreign? ==> w.document.origin != c.host)
    && (w.document.Hosted? && w.document.wait.Got? ==>
          c.flow.Approval? && PassedOn(c.flow.ask, w.document.wait.ask) && w.document.target == c.self)
    && (forall i :: 0 <= i < |w.channel| ==> Authentic(c, w.channel[i], w.posted, w.ownPosted))
    && (w.session.outcome.Resolved? ==>
          exists e :: var d := Result(true, w.session.outcome.value, e);
            d in w.posted || (c.flow.Login? && d in w.ownPosted))
  }

  lemma AuthenticGrows(c: Setup, v: Envelope, p: set<Data>, q: set<Data>, r: set<Data>, s: set<Data>)
    requires Authentic(c, v, p, r) && p <= q && r <= s
    ensures Authentic(c, v, q, s)
  {
  }

  lemma DispatchSafe(c: Setup, w: World, v: Envelope)
    requires Safe(c, w) && Authentic(c, v, w.posted, w.ownPosted)
    ensures Safe(c, Dispatch(c, w, v))
  {
    var after := Dispatch(c, w, v);
    assert forall i :: 0 <= i < |w.channel| ==> after.channel[i] == w.channel[i];
    if after.session != w.session && v.message.data.ok {
      assert v.message.data == Result(true, after.session.outcome.value, v.message.data.error);
    }
  }

  /** Every event keeps the handshake safe. */
  lemma NextSafe(c: Setup, w: World, e: Event)
    requires Safe(c, w) && Possible(c, w, e)
    ensures Safe(c, Next(c, w, e))
  {
    hide Dispatch, PassedOn;
    match e {
      case Deliver(i) =>
        var v := w.channel[i];
        var rest := w.(channel := Remove(w.channel, i));
        assert forall k :: 0 <= k < |rest.channel| ==> rest.channel[k] == w.channel[if k < i then k else k + 1];
        DispatchSafe(c, rest, v);
      case HostedAnswer(d) =>
        forall k | 0 <= k < |w.channel|
          ensures Authentic(c, w.channel[k], w.posted + {d}, w.ownPosted)
        {
          AuthenticGrows(c, w.channel[k], w.posted, w.posted + {d}, w.ownPosted, w.ownPosted);
        }
      case Post(_, _, d, _, _) =>
        forall k | 0 <= k < |w.channel|
          ensures Authentic(c, w.channel[k], w.posted, w.ownPosted + {d})
        {
          AuthenticGrows(c, w.channel[k], w.posted, w.posted, w.ownPosted, w.ownPosted + {d});
        }
      case _ =>
    }
  }

  // ---- Whole runs ----

  /** An interleaving of any events: `ws[i]` is the world before `es[i]`. */
  ghost predicate Execution(c: Setup, ws: seq<World>, es: seq<Event>) {
    && |ws| == |es| + 1
    && (exists d, shown :: ValidStart(c, d) && ws[0] == Start(d, shown))
    && forall i :: 0 <= i < |es| ==> Possible(c, ws[i], es[i]) && ws[i + 1] == Next(c, ws[i], es[i])
  }

  /**
   In every interleaving: the promise is settled at most once, exactly when listener and
   timers are gone; an approval resolves only with an ok result a page of the popup host
   posted, a login also with one a page of the opener's own origin posted in the popup; and
   the hosted page only ever obtains the opener's own request.
   */
  lemma {:induction false} HandshakeSafe(c: Setup, ws: seq<World>, es: seq<Event>, n: nat)
    requires Execution(c, ws, es) && n <= |es|
    ensures Safe(c, ws[n])
    decreases n
  {
    hide Next, Possible;
    if n == 0 {
      StartSafe(c, ws[0]);
    } else {
      HandshakeSafe(c, ws, es, n - 1);
      assert ws[n - 1 + 1] == Next(c, ws[n - 1], es[n - 1]);
      NextSafe(c, ws[n - 1], es[n - 1]);
    }
  }

  lemma StartSafe(c: Setup, w: World)
    requires exists d, shown :: ValidStart(c, d) && w == Start(d, shown)
    ensures Safe(c, w)
  {
  }

  /** Nothing that happens after settlement touches the session again. */
  lemma {:induction false} SettledForever(c: Setup, ws: seq<World>, es: seq<Event>, k: nat, n: nat)
    requires Execution(c, ws, es) && k <= n <= |es| && !ws[k].session.outcome.Pending?
    ensures ws[n].session == ws[k].session
    decreases n
  {
    hide Execution;
    if k < n {
      SettledForever(c, ws, es, k, n - 1);
      HandshakeSafe(c, ws, es, n - 1);
      ExecutionStep(c, ws, es, n - 1);
      SettledStep(c, ws[n - 1], es[n - 1]);
    }
  }

  lemma ExecutionStep(c: Setup, ws: seq<World>, es: seq<Event>, i: nat)
    requires Execution(c, ws, es) && i < |es|
    ensures |ws| == |es| + 1 && Possible(c, ws[i], es[i]) && ws[i + 1] == Next(c, ws[i], es[i])
  {
  }

  lemma SettledStep(c: Setup, w: World, e: Event)
    requires Safe(c, w) && Possible(c, w, e) && !w.session.outcome.Pending?
    ensures Next(c, w, e).session == w.session
  {
  }

  /** The event that hands the session an ok result from its own popup on an accepted origin. */
  predicate Delivers(c: Setup, w: World, e: Event, value: nat) {
    && e.Deliver? && e.index < |w.channel|
    && var v := w.channel[e.index];
       && v.to == Opener && v.message.source == Child
       && (v.message.origin == c.host || (c.flow.Login? && v.message.origin == c.self))
       && v.message.data.Result? && v.message.data.ok && v.message.data.value == value
  }

  lemma ResolvesByDelivery(c: Setup, w: World, e: Event)
    requires Possible(c, w, e) && !w.session.outcome.Resolved? && Next(c, w, e).session.outcome.Resolved?
    ensures Delivers(c, w, e, Next(c, w, e).session.outcome.value)
  {
  }

  /** In either flow, a resolved promise was resolved by such an event. */
  lemma {:induction false} ResolvedByOwnPopup(c: Setup, ws: seq<World>, es: seq<Event>, n: nat) returns (k: nat)
    requires Execution(c, ws, es) && n <= |es| && ws[n].session.outcome.Resolved?
    ensures k < n && Delivers(c, ws[k], es[k], ws[n].session.outcome.value)
    decreases n
  {
    hide Next, Delivers, Execution;
    if n == 0 {
      StartPending(c, ws, es);
      assert false;
    } else {
      ExecutionStep(c, ws, es, n - 1);
      if ws[n - 1].session.outcome.Resolved? {
        SettledForever(c, ws, es, n - 1, n);
        k := ResolvedByOwnPopup(c, ws, es, n - 1);
      } else {
        k := n - 1;
        ResolvesByDelivery(c, ws[n - 1], es[n - 1]);
      }
    }
  }

  lemma StartPending(c: Setup, ws: seq<World>, es: seq<Event>)
    requires Execution(c, ws, es)
    ensures |ws| > 0 && !ws[0].session.outcome.Resolved?
  {
  }

  /** Once the timer has fired, or the poll has seen the popup closed, the promise stays settled. */
  lemma TimersSettleRuns(c: Setup, ws: seq<World>, es: seq<Event>, k: nat, n: nat)
    requires Execution(c, ws, es) && k < n <= |es|
    requires es[k].Timeout? || (es[k].Tick? && ws[k].childClosed)
    ensures !ws[n].session.outcome.Pending? && !ws[n].session.listening && ws[n].session.settlements == 1
  {
    hide Next, Execution;
    ExecutionStep(c, ws, es, k);
    HandshakeSafe(c, ws, es, k);
    TimersSettle(c, ws[k]);
    SettledForever(c, ws, es, k + 1, n);
    HandshakeSafe(c, ws, es, n);
  }

  lemma TimersSettle(c: Setup, w: World)
    requires Safe(c, w)
    ensures !Next(c, w, Timeout).session.outcome.Pending?
    ensures w.childClosed ==> !Next(c, w, Tick).session.outcome.Pending?
  {
  }

  // ---- The handshake gets through ----

  /** An open approval and a waiting hosted page: READY, REQUEST and RESULT, each delivered. */
  lemma ApprovalCompletes(c: Setup, w: World, d: Data)
    requires c.flow.Approval? && d.Result?
    requires w.session == Opened() && w.document == Hosted(c.self, Waiting) && w.channel == []
    ensures var ready := Next(c, w, HostedReady);
            var asked := Next(c, ready, Deliver(0));
            var heard := Next(c, asked, Deliver(0));
            && heard.document.Hosted? && heard.document.wait.Got?
            && PassedOn(c.flow.ask, heard.document.wait.ask)
            && heard.session == Opened() && heard.channel == []
            && var answered := Next(c, heard, HostedAnswer(d));
               Next(c, answered, Deliver(0)).session
               == Session(true, false, false, false, if d.ok then Resolved(d.value) else Denied(d.error), 1)
  {
    var ready := Next(c, w, HostedReady);
    assert ready.channel[0] == Envelope(Message(Child, c.host, Ready), Opener, Some(c.self));
    assert Remove(ready.channel, 0) == [];
    var asked := Next(c, ready, Deliver(0));
    assert |asked.channel| == 1 && Remove(asked.channel, 0) == [];
    var heard := Next(c, asked, Deliver(0));
    var answered := Next(c, heard, HostedAnswer(d));
    assert answered.channel[0] == Envelope(Message(Child, c.host, d), Opener, Some(c.self));
  }

  /** A login resolves with the result of a page of the popup host or of the opener's own origin. */
  lemma LoginCompletes(c: Setup, w: World, origin: Origin, d: Data)
    requires c.flow.Login? && d.Result? && w.session == Opened() && w.channel == []
    requires origin == c.host || origin == c.self
    ensures var posted := w.(channel := [Envelope(Message(Child, origin, d), Opener, Some(c.self))]);
            Next(c, posted, Deliver(0)).session
            == Session(true, false, false, false, if d.ok then Resolved(d.value) else Denied(d.error), 1)
  {
  }

  /** The timer settles an open session as closed. */
  lemma TimeoutCloses(c: Setup, w: World)
    requires w.session == Opened()
    ensures Next(c, w, Timeout).session == Session(true, false, false, false, Closed, 1)
    ensures Next(c, w, Tick).session
            == if w.childClosed then Session(true, false, false, false, Closed, 1) else Opened()
  {
  }
}
