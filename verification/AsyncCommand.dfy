/** One asynchronous cluster command: an object that lives from its first send to its last callback. */
module AsyncCommand {
  import opened RedirectText
  import opened HiredisCommand
  import opened Wrappers

  /** The connection a command was sent on: the slot's, or the one opened for a redirection. */
  datatype Link = SlotLink | HostLink

  /** A callback hiredis still owes: one for every command it accepted. */
  datatype Pending = ReplyCallback(link: Link) | AskingCallback(link: Link)

  datatype Life = Life(pending: seq<Pending>, host: Option<HostPort>, userCalls: nat, deletes: nat)

  /** What the world does during one callback: whether a connect and a send succeed, whether the user's
      error handler exists and asks for a retry, and whether the resend of that retry is accepted. */
  datatype World = World(connectOk: bool, sendOk: bool, retryWanted: bool, resendOk: bool)

  const OK: Reply := Data(0)

  const STARTED: Life := Life([ReplyCallback(SlotLink)], None, 0, 0)

  predicate IsCritical(reply: Reply) { reply.Null? || IsDown(reply) }

  // ----- what each callback does, as a step

  function Finish(s: Life): Life {
    s.(pending := [], userCalls := s.userCalls + 1, deletes := s.deletes + 1)
  }

  function Failed(s: Life, link: Link, w: World): Life {
    if w.retryWanted && w.resendOk then s.(pending := [ReplyCallback(link)]) else Finish(s)
  }

  /** Sends next on the redirection's connection, opening it unless there is one already. */
  function Follow(s: Life, to: HostPort, next: Pending, link: Link, w: World): Life {
    if s.host.None? && !w.connectOk then Failed(s, link, w)
    else
      var t := if s.host.None? then s.(host := Some(to)) else s;
      if w.sendOk then t.(pending := [next]) else Failed(t, link, w)
  }

  function OnReply(s: Life, link: Link, reply: Reply, w: World): Life
    requires reply.Error? ==> |reply.text| < NPOS
  {
    if IsCritical(reply) then Failed(s, link, w)
    else if !reply.Error? then Finish(s)
    else match StateOf(reply.text)
      case AskTo => Follow(s, ParseHostPort(reply.text), Pending.AskingCallback(HostLink), link, w)
      case MovedTo => Follow(s, ParseHostPort(reply.text), ReplyCallback(HostLink), link, w)
      case Ready => Finish(s)
      case _ => Failed(s, link, w)
  }

  function OnAsking(s: Life, link: Link, reply: Reply, w: World): Life {
    if !IsCritical(reply) && reply == OK && w.sendOk then s.(pending := [ReplyCallback(HostLink)])
    else Failed(s, link, w)
  }

  // ----- the object

  class AsyncHiredisCommand {
    var pending: seq<Pending>
    var host: Option<HostPort>
    var userCalls: nat
    var deletes: nat

    ghost function View(): Life
      reads this
    {
      Life(pending, host, userCalls, deletes)
    }

    /** The first send; the factory deletes the object and throws when it fails. */
    constructor (sendOk: bool)
      ensures View() == if sendOk then STARTED else Life([], None, 0, 1)
    {
      pending := if sendOk then [ReplyCallback(SlotLink)] else [];
      host, userCalls, deletes := None, 0, if sendOk then 0 else 1;
    }

    method UserCallbackAndDelete()
      modifies this
      ensures View() == Finish(old(View())).(pending := old(pending))
    {
      userCalls := userCalls + 1;
      deletes := deletes + 1;
    }

    method Retry(link: Link, w: World)
      requires pending == []
      modifies this
      ensures View() == if w.resendOk then old(View()).(pending := [ReplyCallback(link)]) else Finish(old(View()))
    {
      if w.resendOk {
        pending := [ReplyCallback(link)];
      } else {
        UserCallbackAndDelete();
      }
    }

    /** Opens the redirection's connection unless there is one; false when that throws. */
    method EnsureHost(to: HostPort, w: World) returns (ok: bool)
      modifies this`host
      ensures ok == (old(host).Some? || w.connectOk)
      ensures host == if old(host).None? && w.connectOk then Some(to) else old(host)
    {
      ok := true;
      if host.None? {
        if !w.connectOk {
          return false;
        }
        host := Some(to);
      }
    }

    method ProcessCommandReply(reply: Reply, w: World)
      requires |pending| == 1 && pending[0].ReplyCallback?
      requires reply.Error? ==> |reply.text| < NPOS
      modifies this
      ensures View() == OnReply(old(View()), old(pending[0].link), reply, w)
    {
      hide ParseHostPort, StateOf, IsCritical;
      var link := pending[0].link;
      pending := [];
      var threw, finish := IsCritical(reply), true;
      if !threw {
        var state := if reply.Error? then StateOf(reply.text) else Ready;
        match state {
          case AskTo =>
            var ok := EnsureHost(ParseHostPort(reply.text), w);
            if ok && w.sendOk {
              pending, finish := [Pending.AskingCallback(HostLink)], false;
            } else {
              threw := true;
            }
          case MovedTo =>
            var ok := EnsureHost(ParseHostPort(reply.text), w);
            if ok && w.sendOk {
              pending, finish := [ReplyCallback(HostLink)], false;
            } else {
              threw := true;
            }
          case Ready =>
          case _ => threw := true;
        }
      }
      if threw && w.retryWanted {
        Retry(link, w);
      } else if finish {
        UserCallbackAndDelete();
      }
    }

    method AskingCallback(reply: Reply, w: World)
      requires |pending| == 1 && pending[0].AskingCallback?
      modifies this
      ensures View() == OnAsking(old(View()), old(pending[0].link), reply, w)
    {
      var link := pending[0].link;
      pending := [];
      if !IsCritical(reply) && reply == OK && w.sendOk {
        pending := [ReplyCallback(HostLink)];
      } else if w.retryWanted {
        Retry(link, w);
      } else {
        UserCallbackAndDelete();
      }
    }
  }

  // ----- runs

  /** One delivery: a callback's reply and what the world does meanwhile. */
  datatype Delivery = Delivery(reply: Reply, world: World)

  predicate Readable(d: Delivery) { d.reply.Error? ==> |d.reply.text| < NPOS }

  function Deliver(s: Life, d: Delivery): Life
    requires s.pending != [] && Readable(d)
  {
    match s.pending[0]
    case ReplyCallback(link) => OnReply(s, link, d.reply, d.world)
    case AskingCallback(link) => OnAsking(s, link, d.reply, d.world)
  }

  ghost predicate Legal(s: Life, ds: seq<Delivery>)
    decreases |ds|
  {
    ds != [] ==> s.pending != [] && Readable(ds[0]) && Legal(Deliver(s, ds[0]), ds[1..])
  }

  ghost function Exec(s: Life, ds: seq<Delivery>): Life
    requires Legal(s, ds)
    decreases |ds|
  {
    if ds == [] then s else Exec(Deliver(s, ds[0]), ds[1..])
  }

  predicate Alive(s: Life) { |s.pending| == 1 && s.userCalls == 0 && s.deletes == 0 }

  predicate Completed(s: Life) { s.pending == [] && s.userCalls == 1 && s.deletes == 1 }

  /** Nothing is sent on a redirection's connection before it is open. */
  predicate Waits(s: Life) {
    Alive(s) && (s.pending[0].AskingCallback? || s.pending[0].link == HostLink ==> s.host.Some?)
  }

  lemma FailedOnce(s: Life, link: Link, w: World)
    requires Alive(s) && (link == HostLink ==> s.host.Some?)
    ensures Waits(Failed(s, link, w)) || Completed(Failed(s, link, w))
  {
  }

  lemma FollowOnce(s: Life, to: HostPort, next: Pending, link: Link, w: World)
    requires Alive(s) && (link == HostLink ==> s.host.Some?)
    ensures Waits(Follow(s, to, next, link, w)) || Completed(Follow(s, to, next, link, w))
  {
    FailedOnce(s, link, w);
    FailedOnce(s.(host := Some(to)), link, w);
  }

  lemma DeliverOnce(s: Life, d: Delivery)
    requires Waits(s) && Readable(d)
    ensures Waits(Deliver(s, d)) || Completed(Deliver(s, d))
  {
    var link, w := s.pending[0].link, d.world;
    FailedOnce(s, link, w);
    if s.pending[0].ReplyCallback? && d.reply.Error? {
      FollowOnce(s, ParseHostPort(d.reply.text), Pending.AskingCallback(HostLink), link, w);
      FollowOnce(s, ParseHostPort(d.reply.text), ReplyCallback(HostLink), link, w);
    }
  }

  /** Along every sequence of answers, failures and retries the command is either waiting for exactly
      one callback, or it has called its user once and deleted itself once and no callback is left to
      reach it. */
  lemma {:induction false} CompletesOnce(s: Life, ds: seq<Delivery>)
    requires Waits(s) && Legal(s, ds)
    ensures Waits(Exec(s, ds)) || Completed(Exec(s, ds))
    decreases |ds|
  {
    if ds != [] {
      var t := Deliver(s, ds[0]);
      DeliverOnce(s, ds[0]);
      if Waits(t) { CompletesOnce(t, ds[1..]); } else { assert ds[1..] == []; }
    }
  }

  /** So does every command whose first send was accepted. */
  lemma EveryCommandCompletesOnce(ds: seq<Delivery>)
    requires Legal(STARTED, ds)
    ensures var s := Exec(STARTED, ds);
            && (s.pending == [] ==> s.userCalls == 1 && s.deletes == 1)
            && (s.pending != [] ==> |s.pending| == 1 && s.userCalls == 0 && s.deletes == 0)
  {
    CompletesOnce(STARTED, ds);
  }

  /** A redirection is sent to the node it names exactly when it is the first one, or names the node of
      the first: the connection opened then is used for every later one. */
  lemma FollowsNewAddressIff(s: Life, link: Link, text: string, w: World)
    requires Alive(s) && |text| < NPOS && !Contains(text, "CLUSTERDOWN")
    requires StateOf(text) == AskTo || StateOf(text) == MovedTo
    requires w.connectOk && w.sendOk
    ensures var r := OnReply(s, link, Error(text), w);
            && Alive(r) && r.pending[0].link == HostLink
            && (r.host == Some(ParseHostPort(text)) <==> s.host.None? || s.host == Some(ParseHostPort(text)))
  {
  }

  // ----- what is sent where

  /** Every send on the redirection's connection has its reason: ASKING answers an ASK, the command itself a MOVED, an
      OK to ASKING on that connection, or a retry of a reply that came from it. */
  predicate Justified(s: Life, d: Delivery, t: Life) {
    var retried := d.world.retryWanted && d.world.resendOk;
    && |s.pending| == 1 && (s.host.Some? ==> t.host == s.host)
    && (|| t.pending == []
        || (t.pending == [Pending.AskingCallback(HostLink)] && t.host.Some?
            && s.pending[0].ReplyCallback? && d.reply.Error? && "ASK" <= d.reply.text)
        || (t.pending == [ReplyCallback(HostLink)] && t.host.Some?
            && (|| (s.pending[0].ReplyCallback? && d.reply.Error? && "MOVED" <= d.reply.text)
                || (s.pending[0] == Pending.AskingCallback(HostLink) && d.reply == Data(0))
                || (s.pending[0].link == HostLink && retried)))
        || (t.pending == [ReplyCallback(SlotLink)] && s.pending == [ReplyCallback(SlotLink)] && retried))
  }

  /** ASKING is sent on the redirection's connection only. */
  predicate AskingOnHost(s: Life) { s.pending != [] && s.pending[0].AskingCallback? ==> s.pending[0].link == HostLink }

  lemma SendIsJustified(s: Life, d: Delivery)
    requires Waits(s) && AskingOnHost(s) && Readable(d)
    ensures Justified(s, d, Deliver(s, d)) && AskingOnHost(Deliver(s, d))
  {
    hide ParseHostPort, IsCritical;
  }

  lemma {:induction false} ExecOneMore(s: Life, ds: seq<Delivery>, d: Delivery)
    requires Legal(s, ds + [d])
    ensures Legal(s, ds) && Exec(s, ds).pending != [] && Readable(d)
    ensures Exec(s, ds + [d]) == Deliver(Exec(s, ds), d)
    decreases |ds|
  {
    hide Deliver;
    if ds == [] {
      assert [] + [d] == [d] && [d][1..] == [];
    } else {
      assert (ds + [d])[0] == ds[0] && (ds + [d])[1..] == ds[1..] + [d];
      ExecOneMore(Deliver(s, ds[0]), ds[1..], d);
    }
  }

  lemma {:induction false} AskingStaysOnHost(ds: seq<Delivery>)
    requires Legal(STARTED, ds)
    ensures AskingOnHost(Exec(STARTED, ds)) && (Waits(Exec(STARTED, ds)) || Completed(Exec(STARTED, ds)))
  {
    CompletesOnce(STARTED, ds);
    if ds != [] {
      var front, d := ds[..|ds| - 1], ds[|ds| - 1];
      assert front + [d] == ds;
      ExecOneMore(STARTED, front, d);
      AskingStaysOnHost(front);
      SendIsJustified(Exec(STARTED, front), d);
    }
  }

  /** That holds of every callback of every run: the command goes over the redirection's connection only behind MOVED,
      behind OK to an ASKING sent there, or in retry of a reply from there. */
  lemma EverySendIsJustified(ds: seq<Delivery>, d: Delivery)
    requires Legal(STARTED, ds + [d])
    ensures Legal(STARTED, ds) && Justified(Exec(STARTED, ds), d, Exec(STARTED, ds + [d]))
  {
    ExecOneMore(STARTED, ds, d);
    AskingStaysOnHost(ds);
    SendIsJustified(Exec(STARTED, ds), d);
    hide Justified, Deliver, Exec, Waits;
  }

  /** ASK: exactly an ASKING is pending, on the connection that the command has, or that is opened to the node named.
      MOVED: the command itself is. */
  lemma RedirectionIsFollowed(s: Life, text: string, w: World)
    requires Waits(s) && s.pending[0].ReplyCallback? && |text| < NPOS && NotDown(text)
    requires w.sendOk && (s.host.Some? || w.connectOk)
    ensures var host := if s.host.Some? then s.host else Some(ParseHostPort(text));
            && ("ASK" <= text ==>
                  Deliver(s, Delivery(Error(text), w)) == s.(pending := [Pending.AskingCallback(HostLink)], host := host))
            && ("MOVED" <= text ==>
                  Deliver(s, Delivery(Error(text), w)) == s.(pending := [ReplyCallback(HostLink)], host := host))
  {
    NotDownIs(text);
    hide ParseHostPort, NotDown, Contains;
    assert "MOVED" <= text ==> text[0] == 'M';
  }

  /** OK to ASKING: the command is pending on that same connection. */
  lemma AskedIsSent(s: Life, w: World)
    requires Waits(s) && s.pending[0].AskingCallback? && w.sendOk
    ensures Deliver(s, Delivery(Data(0), w)) == s.(pending := [ReplyCallback(HostLink)])
  {
  }

  /** What a callback that fails leaves: the command on the connection that the reply came from when a retry is wanted
      and accepted, else one user callback and one deletion. */
  predicate RetriedOrEnded(s: Life, w: World, t: Life)
    requires s.pending != []
  {
    && t.userCalls == s.userCalls + (if w.retryWanted && w.resendOk then 0 else 1)
    && t.deletes == s.deletes + (if w.retryWanted && w.resendOk then 0 else 1)
    && t.pending == if w.retryWanted && w.resendOk then [ReplyCallback(s.pending[0].link)] else []
  }

  /** A reply that is none, CLUSTERDOWN, an ASKING that was not answered with OK, or a redirection that cannot be
      followed fails; every other reply ends the command, whatever the handler wants. */
  lemma RepliesDecide(s: Life, reply: Reply, w: World)
    requires Waits(s) && (reply.Error? ==> |reply.text| < NPOS)
    ensures var t := Deliver(s, Delivery(reply, w));
            var redirected := reply.Error? && ("ASK" <= reply.text || "MOVED" <= reply.text);
            && (reply.Null? || (reply.Error? && !NotDown(reply.text)) ==> RetriedOrEnded(s, w, t))
            && (s.pending[0].AskingCallback? && (reply != Data(0) || !w.sendOk) ==> RetriedOrEnded(s, w, t))
            && (s.pending[0].ReplyCallback? && redirected && (!w.sendOk || (s.host.None? && !w.connectOk)) ==>
                  RetriedOrEnded(s, w, t))
            && (s.pending[0].ReplyCallback? && !reply.Null? && !redirected && (reply.Error? ==> NotDown(reply.text)) ==>
                  t == s.(pending := [], userCalls := 1, deletes := 1))
  {
    if reply.Error? { NotDownIs(reply.text); }
    hide ParseHostPort, NotDown, Contains;
    if reply.Error? && "CLUSTERDOWN" <= reply.text { DownAtStart(reply.text); }
  }
}
