/** Several asynchronous commands on one cluster. Those redirected to the same node share the connection that the
    container keeps for it, and the first of them to end disconnects it. */
module AsyncShared {
  import opened RedirectText
  import opened AsyncCommand
  import opened Wrappers
  import H = HiredisCommand

  /** A disconnected connection takes no more commands, and is freed when it owes no more callbacks. */
  datatype LinkState = Open | Closing | Freed

  /** links is the container's map, from which nothing is ever removed; lost are the nodes whose connection broke. */
  datatype System = System(cmds: seq<Life>, links: map<HostPort, LinkState>, lost: set<HostPort>)

  datatype Step = Start | Callback(i: nat, d: Delivery)

  const EMPTY: System := System([], map[], {})

  /** The command waits for a callback of the connection to h. */
  predicate WaitsOn(c: Life, h: HostPort) { c.pending != [] && c.pending[0].link == HostLink && c.host == Some(h) }

  predicate Ended(c: Life, h: HostPort) { c.pending == [] && c.host == Some(h) }

  ghost predicate SomeWait(cmds: seq<Life>, h: HostPort) { exists j | 0 <= j < |cmds| :: WaitsOn(cmds[j], h) }

  ghost predicate SomeEnded(cmds: seq<Life>, h: HostPort) { exists j | 0 <= j < |cmds| :: Ended(cmds[j], h) }

  // ----- what one callback does to the connections

  /** The node that the callback sends to: a redirection goes to the command's node if it has one, else to the
      node named; behind ASKING the command itself is sent. */
  function Follows(c: Life, d: Delivery): Option<HostPort>
    requires c.pending != [] && Readable(d)
  {
    if IsCritical(d.reply) then None
    else match c.pending[0]
      case ReplyCallback(_) =>
        if d.reply.Error? && StateOf(d.reply.text) in {AskTo, MovedTo}
        then (if c.host.Some? then c.host else Some(ParseHostPort(d.reply.text)))
        else None
      case AskingCallback(_) => if d.reply == OK then c.host else None
  }

  predicate Shut(s: System, h: HostPort) { h in s.links && s.links[h] != Open }

  /** hiredis and the container set limits to what the world may do: known connections are handed out again, only
      open ones take commands, and one that broke answers nothing. */
  predicate Possible(s: System, c: Life, d: Delivery)
    requires c.pending != [] && Readable(d)
  {
    && (Follows(c, d).Some? && Follows(c, d).value in s.links ==> d.world.connectOk)
    && (Follows(c, d).Some? && Shut(s, Follows(c, d).value) ==> !d.world.sendOk)
    && (c.pending[0].link == HostLink && c.host.Some? ==>
          && (Shut(s, c.host.value) || d.reply.Null? ==> !d.world.resendOk)
          && (c.host.value in s.lost ==> d.reply.Null?))
  }

  /** The callback uses a connection that has been freed: it sends on it, or the destructor disconnects it. */
  predicate Touches(s: System, c: Life, d: Delivery)
    requires c.pending != [] && Readable(d)
  {
    var to, now := Follows(c, d), Deliver(c, d);
    || (to.Some? && to.value in s.links && s.links[to.value].Freed?)
    || (now.pending == [] && now.host.Some? && now.host.value in s.links && s.links[now.host.value].Freed?)
  }

  predicate Enabled(s: System, step: Step) {
    step.Callback? ==>
      step.i < |s.cmds| && s.cmds[step.i].pending != [] && Readable(step.d) && Possible(s, s.cmds[step.i], step.d)
  }

  predicate Safe(s: System, step: Step)
    requires Enabled(s, step)
  {
    step.Callback? ==> !Touches(s, s.cmds[step.i], step.d)
  }

  function LostBy(c: Life, d: Delivery): set<HostPort>
    requires c.pending != []
  {
    if c.pending[0].link == HostLink && c.host.Some? && d.reply.Null? then {c.host.value} else {}
  }

  function UsedBy(c: Life): set<HostPort> { if c.host.Some? then {c.host.value} else {} }

  /** A connection after a callback that left the commands as cmds and may have ended one that used it. */
  ghost function LinkAfter(s: System, cmds: seq<Life>, h: HostPort, ended: bool): LinkState {
    if !ended && !Shut(s, h) then Open else if SomeWait(cmds, h) then Closing else Freed
  }

  ghost function Apply(s: System, step: Step): System
    requires Enabled(s, step)
  {
    match step
    case Start => s.(cmds := s.cmds + [STARTED])
    case Callback(i, d) =>
      var now := Deliver(s.cmds[i], d);
      var cmds := s.cmds[i := now];
      var links := map h | h in s.links.Keys + UsedBy(now) :: LinkAfter(s, cmds, h, Ended(now, h));
      System(cmds, links, s.lost + LostBy(s.cmds[i], d))
  }

  // ----- what every run keeps

  predicate WellFormed(c: Life) {
    (Waits(c) || Completed(c)) && (c.pending != [] && c.pending[0].AskingCallback? ==> c.pending[0].link == HostLink)
  }

  /** Every command is waiting once or completed once; a connection is open until the first command that used it
      has ended, and freed as soon as it is not open and nobody waits on it. */
  ghost predicate Inv(s: System) {
    && (forall j | 0 <= j < |s.cmds| :: WellFormed(s.cmds[j]) && UsedBy(s.cmds[j]) <= s.links.Keys)
    && (forall h | h in s.links :: s.links[h].Open? <==> !SomeEnded(s.cmds, h))
    && (forall h | h in s.links :: s.links[h].Freed? <==> SomeEnded(s.cmds, h) && !SomeWait(s.cmds, h))
  }

  lemma WellFormedStep(c: Life, d: Delivery)
    requires WellFormed(c) && c.pending != [] && Readable(d)
    ensures WellFormed(Deliver(c, d))
    ensures c.host.Some? ==> Deliver(c, d).host == c.host
  {
    DeliverOnce(c, d);
    HostIsKept(c, d);
    hide Deliver, Waits, Completed;
  }

  lemma HostIsKept(c: Life, d: Delivery)
    requires c.pending != [] && Readable(d) && (c.pending[0].AskingCallback? ==> c.pending[0].link == HostLink)
    ensures c.host.Some? ==> Deliver(c, d).host == c.host
    ensures var now := Deliver(c, d);
            now.pending != [] && now.pending[0].AskingCallback? ==> now.pending[0].link == HostLink
  {
    hide StateOf, ParseHostPort, IsCritical;
  }

  /** On a connection that is not open the next reply is the command's last: nothing that it would lead to is sent. */
  lemma NextReplyIsLast(s: System, c: Life, h: HostPort, d: Delivery)
    requires WellFormed(c) && WaitsOn(c, h) && Readable(d) && Possible(s, c, d) && (Shut(s, h) || d.reply.Null?)
    ensures Completed(Deliver(c, d)) && Deliver(c, d).host == Some(h)
  {
    hide StateOf, ParseHostPort, IsCritical;
  }

  /** Whoever comes to wait on a connection by a callback finds it open. */
  lemma WaitsOnOpen(s: System, c: Life, d: Delivery, h: HostPort)
    requires WellFormed(c) && c.pending != [] && Readable(d) && Possible(s, c, d) && WaitsOn(Deliver(c, d), h)
    ensures !Shut(s, h)
  {
    hide StateOf, ParseHostPort, IsCritical;
  }

  lemma Changed(cmds: seq<Life>, i: nat, now: Life, h: HostPort)
    requires i < |cmds| && cmds[i].pending != []
    ensures SomeEnded(cmds[i := now], h) <==> SomeEnded(cmds, h) || Ended(now, h)
    ensures SomeWait(cmds[i := now], h) ==> SomeWait(cmds, h) || WaitsOn(now, h)
  {
    var all := cmds[i := now];
    if j :| 0 <= j < |cmds| && Ended(cmds[j], h) { assert all[j] == cmds[j]; }
    if Ended(now, h) { assert all[i] == now; }
    if j :| 0 <= j < |all| && Ended(all[j], h) { assert j != i ==> all[j] == cmds[j]; }
    if j :| 0 <= j < |all| && WaitsOn(all[j], h) { assert j != i ==> all[j] == cmds[j]; }
  }

  lemma Added(cmds: seq<Life>, h: HostPort)
    ensures SomeEnded(cmds + [STARTED], h) <==> SomeEnded(cmds, h)
    ensures SomeWait(cmds + [STARTED], h) <==> SomeWait(cmds, h)
  {
    var all := cmds + [STARTED];
    if j :| 0 <= j < |cmds| && Ended(cmds[j], h) { assert all[j] == cmds[j]; }
    if j :| 0 <= j < |cmds| && WaitsOn(cmds[j], h) { assert all[j] == cmds[j]; }
  }

  lemma StartedWaits()
    ensures WellFormed(STARTED) && UsedBy(STARTED) == {}
  {
  }

  lemma InvStep(s: System, step: Step)
    requires Inv(s) && Enabled(s, step)
    ensures Inv(Apply(s, step))
  {
    hide SomeEnded, SomeWait, WellFormed, Possible, Ended, WaitsOn;
    match step
    case Start =>
      forall h { Added(s.cmds, h); }
      StartedWaits();
    case Callback(i, d) =>
      InvCallback(s, i, d);
  }

  lemma NotUsed(s: System, h: HostPort)
    requires Inv(s) && h !in s.links
    ensures !SomeEnded(s.cmds, h)
  {
  }

  lemma InvCallback(s: System, i: nat, d: Delivery)
    requires Inv(s) && Enabled(s, Callback(i, d))
    ensures Inv(Apply(s, Callback(i, d)))
  {
    var c := s.cmds[i];
    var now, t := Deliver(c, d), Apply(s, Callback(i, d));
    WellFormedStep(c, d);
    forall h | h in t.links
      ensures t.links[h].Open? <==> !SomeEnded(t.cmds, h)
      ensures t.links[h].Freed? <==> SomeEnded(t.cmds, h) && !SomeWait(t.cmds, h)
    {
      Changed(s.cmds, i, now, h);
      if h !in s.links { NotUsed(s, h); }
    }
    hide SomeEnded, SomeWait, WellFormed, Possible, Deliver, Ended;
  }

  // ----- runs

  /** No step but perhaps a later one touches a freed connection. */
  ghost predicate Legal(s: System, steps: seq<Step>)
    decreases |steps|
  {
    steps != [] ==> Enabled(s, steps[0]) && Safe(s, steps[0]) && Legal(Apply(s, steps[0]), steps[1..])
  }

  ghost function Exec(s: System, steps: seq<Step>): System
    requires Legal(s, steps)
    decreases |steps|
  {
    if steps == [] then s else Exec(Apply(s, steps[0]), steps[1..])
  }

  /** However many commands share however many connections, each is waiting once or completed once, and of every
      connection it is known when it is open and when freed. */
  lemma {:induction false} SharedRunsKeep(s: System, steps: seq<Step>)
    requires Inv(s) && Legal(s, steps)
    ensures Inv(Exec(s, steps))
    ensures Inv(EMPTY)
    decreases |steps|
  {
    if steps != [] {
      InvStep(s, steps[0]);
      SharedRunsKeep(Apply(s, steps[0]), steps[1..]);
    }
    hide Inv, Enabled, Safe;
  }

  /** Commands that are still where they were. */
  ghost predicate NoNewWaits(s: System, t: System, h: HostPort) {
    forall j | 0 <= j < |t.cmds| && WaitsOn(t.cmds[j], h) :: j < |s.cmds| && t.cmds[j] == s.cmds[j]
  }

  lemma ShutStep(s: System, step: Step, h: HostPort)
    requires Inv(s) && Enabled(s, step) && Shut(s, h)
    ensures Shut(Apply(s, step), h) && NoNewWaits(s, Apply(s, step), h)
  {
    if step.Callback? {
      var c := s.cmds[step.i];
      if WaitsOn(Deliver(c, step.d), h) { WaitsOnOpen(s, c, step.d, h); }
    }
    hide Possible, Deliver, WellFormed, SomeEnded, SomeWait;
  }

  /** Once a connection is not open no run ever sends a command to that node by a redirection again. */
  lemma {:induction false} ShutForGood(s: System, steps: seq<Step>, h: HostPort)
    requires Inv(s) && Legal(s, steps) && Shut(s, h)
    ensures Shut(Exec(s, steps), h) && NoNewWaits(s, Exec(s, steps), h)
    decreases |steps|
  {
    if steps != [] {
      var t := Apply(s, steps[0]);
      InvStep(s, steps[0]);
      ShutStep(s, steps[0], h);
      ShutForGood(t, steps[1..], h);
    }
    hide Inv, Enabled, Safe, WaitsOn, Shut;
  }

  /** A redirection is served, in some world, if and only if its connection is not yet made or still open. */
  lemma ServedIff(s: System, c: Life, text: string)
    requires WellFormed(c) && c.pending != [] && c.pending[0].ReplyCallback? && c.pending[0].link == SlotLink
    requires |text| < NPOS && !Contains(text, "CLUSTERDOWN") && StateOf(text) in {AskTo, MovedTo}
    ensures var h := if c.host.Some? then c.host.value else ParseHostPort(text);
            !Shut(s, h) <==> exists w :: var d := Delivery(H.Error(text), w); Possible(s, c, d) && WaitsOn(Deliver(c, d), h)
  {
    var h := if c.host.Some? then c.host.value else ParseHostPort(text);
    var good := World(true, true, false, false);
    if !Shut(s, h) {
      assert Possible(s, c, Delivery(H.Error(text), good)) && WaitsOn(Deliver(c, Delivery(H.Error(text), good)), h);
    }
    forall w | Possible(s, c, Delivery(H.Error(text), w)) && WaitsOn(Deliver(c, Delivery(H.Error(text), w)), h)
      ensures !Shut(s, h)
    {
      WaitsOnOpen(s, c, Delivery(H.Error(text), w), h);
    }
    hide Contains;
  }

  /** A callback touches a freed connection exactly when the one it uses was used by a command that has ended and
      nobody waits on it. */
  lemma TouchesIff(s: System, i: nat, d: Delivery)
    requires Inv(s) && Enabled(s, Callback(i, d))
    ensures Touches(s, s.cmds[i], d) <==>
              exists h :: (Follows(s.cmds[i], d) == Some(h) || Ended(Deliver(s.cmds[i], d), h))
                          && SomeEnded(s.cmds, h) && !SomeWait(s.cmds, h)
  {
    var to, now := Follows(s.cmds[i], d), Deliver(s.cmds[i], d);
    if to.Some? && to.value !in s.links { NotUsed(s, to.value); }
    if now.host.Some? && now.host.value !in s.links { NotUsed(s, now.host.value); }
    hide Possible, Deliver, Follows, WellFormed, SomeEnded, SomeWait;
  }

  // ----- a run of two commands

  /** A command that is redirected to the node a text names and answered there, and a second one. */
  function TwoCommands(text: string): seq<Step>
    requires |text| < NPOS
  {
    [Start, Callback(0, Moved(text, true)), Callback(0, Delivery(H.Data(7), World(true, true, false, false))), Start]
  }

  function Moved(text: string, sendOk: bool): Delivery { Delivery(H.Error(text), World(true, sendOk, false, false)) }

  lemma FirstRedirected(text: string)
    requires |text| < NPOS && !Contains(text, "CLUSTERDOWN") && StateOf(text) == MovedTo
    ensures var to := ParseHostPort(text);
            var s, step := System([STARTED], map[], {}), Callback(0, Moved(text, true));
            Enabled(s, step) && Safe(s, step)
            && Apply(s, step) == System([Life([ReplyCallback(HostLink)], Some(to), 0, 0)], map[to := Open], {})
  {
    hide ParseHostPort, StateOf, Contains;
  }

  lemma FirstEnds(to: HostPort)
    ensures var s := System([Life([ReplyCallback(HostLink)], Some(to), 0, 0)], map[to := Open], {});
            var step := Callback(0, Delivery(H.Data(7), World(true, true, false, false)));
            Enabled(s, step) && Safe(s, step)
            && Apply(s, step) == System([Life([], Some(to), 1, 1)], map[to := Freed], {})
  {
    hide Contains;
  }

  lemma StartAppends(s: System)
    ensures Enabled(s, Start) && Safe(s, Start) && Apply(s, Start) == s.(cmds := s.cmds + [STARTED])
  {
  }

  lemma RunStep(s: System, steps: seq<Step>)
    requires steps != [] && Enabled(s, steps[0]) && Safe(s, steps[0]) && Legal(Apply(s, steps[0]), steps[1..])
    ensures Legal(s, steps) && Exec(s, steps) == Exec(Apply(s, steps[0]), steps[1..])
  {
    hide Enabled, Safe, Apply;
  }

  /** Two commands, one after the other, that are redirected to the same node: the second sends on a connection
      that has been freed. */
  lemma SecondTouches(text: string)
    requires |text| < NPOS && !Contains(text, "CLUSTERDOWN") && StateOf(text) == MovedTo
    ensures Legal(EMPTY, TwoCommands(text))
    ensures var s, step := Exec(EMPTY, TwoCommands(text)), Callback(1, Moved(text, false));
            Enabled(s, step) && !Safe(s, step)
  {
    var to, steps := ParseHostPort(text), TwoCommands(text);
    FirstRedirected(text);
    FirstEnds(to);
    var s := System([Life([], Some(to), 1, 1), STARTED], map[to := Freed], {});
    SecondFollows(s, text);
    StartAppends(EMPTY);
    StartAppends(System([Life([], Some(to), 1, 1)], map[to := Freed], {}));
    hide Enabled, Safe, Apply, ParseHostPort, StateOf, Contains;
    assert [] + [STARTED] == [STARTED] && [Life([], Some(to), 1, 1)] + [STARTED] == s.cmds;
    RunStep(System([Life([], Some(to), 1, 1)], map[to := Freed], {}), [Start]);
    RunStep(System([Life([ReplyCallback(HostLink)], Some(to), 0, 0)], map[to := Open], {}), steps[2..]);
    RunStep(System([STARTED], map[], {}), steps[1..]);
    RunStep(EMPTY, steps);
  }

  lemma SecondFollows(s: System, text: string)
    requires |text| < NPOS && !Contains(text, "CLUSTERDOWN") && StateOf(text) == MovedTo
    requires |s.cmds| == 2 && s.cmds[1] == STARTED && s.links == map[ParseHostPort(text) := Freed]
    ensures Enabled(s, Callback(1, Moved(text, false))) && !Safe(s, Callback(1, Moved(text, false)))
  {
    hide ParseHostPort, StateOf, Contains;
  }
}
