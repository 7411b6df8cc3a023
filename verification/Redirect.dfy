/** The text of redirection errors, and the client's parser for it. */
module RedirectText {

  const NPOS: nat := 0xFFFF_FFFF_FFFF_FFFF

  /** size_t arithmetic wraps. */
  function Wrap(n: int): nat
    requires 0 - NPOS <= n <= NPOS + 1
  {
    if n < 0 then n + NPOS + 1 else if n > NPOS then n - NPOS - 1 else n
  }

  function Find(s: string, c: char, from: nat): (p: nat)
    requires |s| < NPOS
    ensures p == NPOS || from <= p < |s|
    ensures p != NPOS ==> s[p] == c && forall i :: from <= i < p ==> s[i] != c
    ensures p == NPOS ==> forall i :: from <= i < |s| ==> s[i] != c
    decreases |s| - from
  {
    if from >= |s| then NPOS else if s[from] == c then from else Find(s, c, from + 1)
  }

  /** std::string::substr: the count is cut at the end of the text. */
  function Substr(s: string, pos: nat, count: nat): string
    requires pos <= |s|
  {
    if pos + count <= |s| then s[pos..pos + count] else s[pos..]
  }

  datatype HostPort = Parsed(host: string, port: string) | Rejected

  function HostPosition(error: string): (p: nat)
    requires |error| < NPOS
    ensures p <= |error|
  {
    Wrap(Find(error, ' ', Wrap(Find(error, ' ', 0) + 1)) + 1)
  }

  function PortPosition(error: string): (p: nat)
    requires |error| < NPOS
    ensures p <= |error|
  {
    Wrap(Find(error, ':', HostPosition(error)) + 1)
  }

  function ParseHostPort(error: string): HostPort
    requires |error| < NPOS
  {
    var hostPosition, portPosition := HostPosition(error), PortPosition(error);
    if hostPosition != NPOS && portPosition != NPOS
    then Parsed(Substr(error, hostPosition, Wrap(portPosition - hostPosition - 1)), Substr(error, portPosition, NPOS))
    else Rejected
  }

  datatype Addr = Addr(host: string, port: string)

  /** A redirection as the server writes it: kind, slot, address. */
  function RedirectionText(kind: string, slot: string, to: Addr): string {
    kind + " " + slot + " " + to.host + ":" + to.port
  }

  predicate WellFormed(kind: string, slot: string, to: Addr) {
    ' ' !in kind && ' ' !in slot && |RedirectionText(kind, slot, to)| < NPOS
  }

  lemma FindBehind(a: string, c: char, b: string, from: nat)
    requires from <= |a| && |a| + 1 + |b| < NPOS && c !in a[from..]
    ensures Find(a + [c] + b, c, from) == |a|
    decreases |a| - from
  {
    if from < |a| {
      assert a[from] in a[from..];
      FindBehind(a, c, b, from + 1);
    }
  }

  lemma HostStarts(kind: string, slot: string, rest: string)
    requires ' ' !in kind && ' ' !in slot && |kind| + |slot| + |rest| + 2 < NPOS
    ensures HostPosition(kind + " " + slot + " " + rest) == |kind| + |slot| + 2
  {
    var text := kind + " " + slot + " " + rest;
    assert text == kind + [' '] + (slot + " " + rest) == (kind + " " + slot) + [' '] + rest;
    assert kind[0..] == kind && (kind + " " + slot)[|kind| + 1..] == slot;
    FindBehind(kind, ' ', slot + " " + rest, 0);
    FindBehind(kind + " " + slot, ' ', rest, |kind| + 1);
  }

  /** The address part of a text, taken from where it starts. */
  function AddressFrom(text: string, h: nat): HostPort
    requires h <= |text| < NPOS
  {
    var p := Wrap(Find(text, ':', h) + 1);
    Parsed(Substr(text, h, Wrap(p - h - 1)), Substr(text, p, NPOS))
  }

  lemma AddressOf(before: string, host: string, port: string)
    requires |before| + |host| + |port| + 1 < NPOS
    ensures AddressFrom(before + host + ":" + port, |before|) == Parsed(host, port) <==> ':' !in host
  {
    var text, h := before + host + ":" + port, |before|;
    if ':' !in host {
      ColonAfter(before, host, port);
    } else {
      var j :| 0 <= j < |host| && host[j] == ':';
      assert text[h + j] == ':';
      assert h <= Find(text, ':', h) <= h + j;
    }
  }

  lemma ColonAfter(before: string, host: string, port: string)
    requires |before| + |host| + |port| + 1 < NPOS && ':' !in host
    ensures AddressFrom(before + host + ":" + port, |before|) == Parsed(host, port)
  {
    var text, h := before + host + ":" + port, |before|;
    assert (before + host)[h..] == host;
    FindBehind(before + host, ':', port, h);
    hide Find;
    assert text == (before + host) + [':'] + port;
    assert text[h..h + |host|] == host && text[h + |host| + 1..] == port;
  }

  /** A well-formed redirection is read back for exactly the hosts without a colon. */
  lemma ReadsBackIff(kind: string, slot: string, to: Addr)
    requires WellFormed(kind, slot, to)
    ensures ParseHostPort(RedirectionText(kind, slot, to)) == Parsed(to.host, to.port) <==> ':' !in to.host
    ensures ':' !in to.host ==>
              ParseHostPort(kind + " " + slot + " " + to.host + ":" + to.port) == Parsed(to.host, to.port)
  {
    var before := kind + " " + slot + " ";
    var text := before + to.host + ":" + to.port;
    assert RedirectionText(kind, slot, to) == text == before + (to.host + ":" + to.port);
    HostStarts(kind, slot, to.host + ":" + to.port);
    AddressOf(before, to.host, to.port);
    NeverRejects(text);
    hide AddressFrom, ParseHostPort, HostPosition;
  }

  /** No text is ever rejected: the wrapped npos + 1 is position 0. */
  lemma NeverRejects(error: string)
    requires |error| < NPOS
    ensures ParseHostPort(error).Parsed? && ParseHostPort(error) == AddressFrom(error, HostPosition(error))
    ensures (forall i :: HostPosition(error) <= i < |error| ==> error[i] != ':') ==>
              ParseHostPort(error) == Parsed(error[HostPosition(error)..], error)
  {
    var h := HostPosition(error);
    if forall i :: h <= i < |error| ==> error[i] != ':' {
      assert Find(error, ':', h) == NPOS && PortPosition(error) == 0;
      assert Wrap(0 - h - 1) == NPOS - h;
      assert Substr(error, 0, NPOS) == error;
    }
  }

  predicate OccursAt(s: string, pat: string, i: nat) {
    i + |pat| <= |s| && s[i..i + |pat|] == pat
  }

  predicate Contains(s: string, pat: string) {
    exists i | 0 <= i <= |s| :: OccursAt(s, pat, i)
  }

  datatype ProcessState = MovedTo | AskTo | Ready | ClusterDown | Failed

  /** What processResult makes of an error text. */
  function StateOf(error: string): ProcessState {
    if "ASK" <= error then AskTo
    else if "MOVED" <= error then MovedTo
    else if "CLUSTERDOWN" <= error then ClusterDown
    else Ready
  }
}

/** One command sent through the cluster client: the blocking redirection protocol. */
module HiredisCommand {
  import opened RedirectText

  datatype Reply = Null | Error(text: string) | Data(value: nat)

  /** A pooled connection, exclusively held while taken. */
  datatype Con = Con(id: nat, node: Addr)

  datatype Event =
    | Took(con: Con)
    | Released(con: Con)
    | Asked(con: Con)
    | Sent(con: Con, asked: bool, effect: bool, reply: Reply)

  /** Who owns the command's slot, and the node it is being moved to (the owner itself when to none). */
  datatype Ownership = Ownership(slot: string, owner: Addr, importing: Addr)

  predicate ReadableRedirection(kind: string, o: Ownership, to: Addr) {
    WellFormed(kind, o.slot, to) && ':' !in to.host && !Contains(RedirectionText(kind, o.slot, to), "CLUSTERDOWN")
  }

  predicate Sane(o: Ownership) {
    ReadableRedirection("MOVED", o, o.owner) && ReadableRedirection("ASK", o, o.importing)
  }

  predicate IsDown(reply: Reply) { reply.Error? && Contains(reply.text, "CLUSTERDOWN") }

  predicate IsRedirection(reply: Reply) { reply.Error? && StateOf(reply.text) in {AskTo, MovedTo} }

  /** The answer of a node that executed the command, its own errors included. */
  predicate IsFinal(reply: Reply) { !reply.Null? && !IsDown(reply) && !IsRedirection(reply) }

  predicate MayExecute(o: Ownership, node: Addr, asked: bool) {
    node == o.owner || (node == o.importing && asked)
  }

  /** What a node may do with the command: execute it; redirect it; report the cluster down; or the
      connection is lost before or after the node executed it. */
  predicate MayAnswer(o: Ownership, node: Addr, asked: bool, effect: bool, reply: Reply) {
    || (effect && MayExecute(o, node, asked) && (IsFinal(reply) || reply.Null?))
    || (!effect && (reply.Null? || IsDown(reply)))
    || (!effect && node == o.owner != o.importing && reply == Error(RedirectionText("ASK", o.slot, o.importing)))
    || (!effect && !MayExecute(o, node, asked) && reply == Error(RedirectionText("MOVED", o.slot, o.owner)))
  }

  // ----- a run

  /** An answer of a node, and whether the command took effect there. */
  datatype Answer = Answer(effect: bool, reply: Reply)

  /** What asking for a redirection's connection gives: none (a null pointer, or an exception of the pool), one
      whose error flag is set, which pools hand out like any other, or a good one. */
  datatype Link = Unavailable | Broken | Good

  /** What the nodes and the connections do during one call. */
  datatype World = World(first: Answer, link: Link, asking: Reply, second: Answer)

  predicate InMemory(reply: Reply) { reply.Error? ==> |reply.text| < NPOS }

  /** The nodes keep to the protocol; the second answer matters only after a redirection. */
  predicate Possible(o: Ownership, first: Addr, w: World) {
    && InMemory(w.first.reply)
    && MayAnswer(o, first, false, w.first.effect, w.first.reply)
    && (IsAsk(o, w.first.reply) ==> MayAnswer(o, o.importing, w.asking.Data?, w.second.effect, w.second.reply))
    && (IsMoved(o, w.first.reply) ==> MayAnswer(o, o.owner, false, w.second.effect, w.second.reply))
  }

  datatype Outcome = Returned(reply: Reply) | Threw

  datatype History = History(log: seq<Event>, outcome: Outcome)

  function FirstCon(first: Addr): Con { Con(0, first) }

  /** The connection of the redirection. */
  function HostCon(reply: Reply): Con
    requires reply.Error? && |reply.text| < NPOS
  {
    var to := ParseHostPort(reply.text);
    NeverRejects(reply.text);
    Con(3, Addr(to.host, to.port))
  }

  function FirstPart(first: Addr, w: World): seq<Event> {
    [Took(FirstCon(first)), Sent(FirstCon(first), false, w.first.effect, w.first.reply), Released(FirstCon(first))]
  }

  function AfterAsk(h: Con, w: World): History {
    match w.link
    case Unavailable => History([], Threw)
    case Broken => History([Took(h)], Threw)
    case Good =>
      if w.asking.Null? || w.asking.Error? then History([Took(h), Asked(h)], Threw)
      else
        var sent := [Took(h), Asked(h), Sent(h, true, w.second.effect, w.second.reply)];
        if w.second.reply.Null? || IsDown(w.second.reply) then History(sent, Threw)
        else History(sent + [Released(h)], Returned(w.second.reply))
  }

  function AfterMoved(h: Con, w: World): History {
    match w.link
    case Unavailable => History([], Threw)
    case Broken => History([Took(h)], Threw)
    case Good =>
      History([Took(h), Sent(h, false, w.second.effect, w.second.reply), Released(h)], Returned(w.second.reply))
  }

  /** What process does in a given world. */
  function Run(first: Addr, w: World): History
    requires InMemory(w.first.reply)
  {
    var reply, start := w.first.reply, FirstPart(first, w);
    if reply.Null? || IsDown(reply) then History(start, Threw)
    else if !reply.Error? then History(start, Returned(reply))
    else match StateOf(reply.text)
      case AskTo => Behind(start, AfterAsk(HostCon(reply), w))
      case MovedTo => Behind(start, AfterMoved(HostCon(reply), w))
      case Ready => History(start, Returned(reply))
      case _ => History(start, Threw)
  }

  function Behind(start: seq<Event>, h: History): History { History(start + h.log, h.outcome) }

  // ----- reading a history

  function HeldAfter(held: multiset<Con>, e: Event): multiset<Con> {
    match e
    case Took(con) => held + multiset{con}
    case Released(con) => held - multiset{con}
    case Asked(_) => held
    case Sent(_, _, _, _) => held
  }

  /** The connections taken and not released. */
  function Held(log: seq<Event>): multiset<Con> {
    if log == [] then multiset{} else HeldAfter(Held(log[..|log| - 1]), log[|log| - 1])
  }

  function Sends(log: seq<Event>): nat {
    if log == [] then 0 else Sends(log[..|log| - 1]) + if log[|log| - 1].Sent? then 1 else 0
  }

  function Effects(log: seq<Event>): nat {
    if log == [] then 0
    else Effects(log[..|log| - 1]) + if log[|log| - 1].Sent? && log[|log| - 1].effect then 1 else 0
  }

  lemma Push(log: seq<Event>, e: Event)
    ensures Held(log + [e]) == HeldAfter(Held(log), e)
    ensures Sends(log + [e]) == Sends(log) + if e.Sent? then 1 else 0
    ensures Effects(log + [e]) == Effects(log) + if e.Sent? && e.effect then 1 else 0
  {
    assert (log + [e])[..|log|] == log;
  }

  /** The command took effect once, in the last send, whose reply this is: on the owner, or on the
      importing node with ASKING just before it on the same connection, which was then released. */
  predicate ExactlyOnce(o: Ownership, h: History) {
    && h.outcome.Returned? && Effects(h.log) == 1 && IsFinal(h.outcome.reply) && |h.log| >= 3
    && var s, before, after := h.log[|h.log| - 2], h.log[|h.log| - 3], h.log[|h.log| - 1];
       && s.Sent? && s.effect && s.reply == h.outcome.reply && after == Released(s.con)
       && (s.con.node == o.owner || (s.con.node == o.importing && before == Asked(s.con)))
  }

  predicate IsAsk(o: Ownership, reply: Reply) { reply == Error(RedirectionText("ASK", o.slot, o.importing)) }

  predicate IsMoved(o: Ownership, reply: Reply) { reply == Error(RedirectionText("MOVED", o.slot, o.owner)) }

  function AddressRead(a: Addr): HostPort { Parsed(a.host, a.port) }

  lemma RedirectionIsRead(o: Ownership)
    requires Sane(o)
    ensures ParseHostPort(RedirectionText("ASK", o.slot, o.importing)) == AddressRead(o.importing)
    ensures ParseHostPort(RedirectionText("MOVED", o.slot, o.owner)) == AddressRead(o.owner)
    ensures StateOf(RedirectionText("ASK", o.slot, o.importing)) == AskTo
    ensures StateOf(RedirectionText("MOVED", o.slot, o.owner)) == MovedTo
  {
    ReadsBackIff("ASK", o.slot, o.importing);
    ReadsBackIff("MOVED", o.slot, o.owner);
    RedirectionState(o);
  }

  lemma FirstAnswer(o: Ownership, node: Addr, effect: bool, reply: Reply)
    requires Sane(o) && MayAnswer(o, node, false, effect, reply) && !reply.Null? && !IsDown(reply)
    ensures !IsRedirection(reply) ==> IsFinal(reply) && effect && node == o.owner
    ensures IsRedirection(reply) ==> !effect && |reply.text| < NPOS
    ensures IsRedirection(reply) && StateOf(reply.text) == AskTo ==>
              IsAsk(o, reply) && o.importing != o.owner && ParseHostPort(reply.text) == AddressRead(o.importing)
    ensures IsRedirection(reply) && StateOf(reply.text) == MovedTo ==>
              IsMoved(o, reply) && ParseHostPort(reply.text) == AddressRead(o.owner)
    ensures StateOf(RedirectionText("ASK", o.slot, o.importing)) == AskTo
    ensures reply.Error? ==> StateOf(reply.text) in {AskTo, MovedTo, Ready}
  {
    RedirectionIsRead(o);
    if reply.Error? && StateOf(reply.text) == ClusterDown { assert OccursAt(reply.text, "CLUSTERDOWN", 0); }
  }

  lemma RedirectionState(o: Ownership)
    ensures StateOf(RedirectionText("ASK", o.slot, o.importing)) == AskTo
    ensures StateOf(RedirectionText("MOVED", o.slot, o.owner)) == MovedTo
  {
    assert RedirectionText("ASK", o.slot, o.importing)[..3] == "ASK";
    assert RedirectionText("MOVED", o.slot, o.owner)[..5] == "MOVED";
    assert RedirectionText("MOVED", o.slot, o.owner)[0] != "ASK"[0];
  }

  // ----- what a run does, reply by reply

  /** No CLUSTERDOWN anywhere in an error text. */
  predicate NotDown(text: string) {
    forall i | 0 <= i <= |text| :: !OccursAt(text, "CLUSTERDOWN", i)
  }

  lemma NotDownIs(text: string)
    ensures NotDown(text) <==> !IsDown(Error(text))
  {
  }

  lemma DownIs(reply: Reply)
    ensures IsDown(reply) <==> reply.Error? && !NotDown(reply.text)
  {
    if reply.Error? { NotDownIs(reply.text); }
    hide NotDown, Contains;
  }

  lemma DownAtStart(text: string)
    requires "CLUSTERDOWN" <= text
    ensures !NotDown(text)
  {
    assert text == "" + "CLUSTERDOWN" + text[11..];
    DownInside("", text[11..]);
  }

  lemma DownInside(a: string, b: string)
    ensures !NotDown(a + "CLUSTERDOWN" + b)
  {
    assert (a + "CLUSTERDOWN" + b)[|a|..|a| + 11] == "CLUSTERDOWN";
    assert OccursAt(a + "CLUSTERDOWN" + b, "CLUSTERDOWN", |a|);
  }

  /** Sent once, to the first node: no reply and CLUSTERDOWN throw, and every other reply but a redirection is returned,
      errors of the command included. */
  lemma FirstReplyDecides(first: Addr, w: World)
    requires InMemory(w.first.reply)
    ensures var reply, con := w.first.reply, Con(0, first);
            var log := [Took(con), Sent(con, false, w.first.effect, reply), Released(con)];
            && (reply.Null? || (reply.Error? && !NotDown(reply.text)) ==> Run(first, w) == History(log, Threw))
            && (reply.Data? ==> Run(first, w) == History(log, Returned(reply)))
            && (reply.Error? && NotDown(reply.text) && !("ASK" <= reply.text) && !("MOVED" <= reply.text) ==>
                  Run(first, w) == History(log, Returned(reply)))
  {
    if w.first.reply.Error? {
      NotDownIs(w.first.reply.text);
      if "CLUSTERDOWN" <= w.first.reply.text { DownAtStart(w.first.reply.text); }
    }
    hide NotDown, Contains;
  }

  /** MOVED over a good connection: the command again, to the owner, and whatever answers it. */
  lemma MovedRun(o: Ownership, first: Addr, w: World)
    requires Sane(o) && w.first.reply == Error(RedirectionText("MOVED", o.slot, o.owner)) && w.link.Good?
    requires InMemory(w.first.reply)
    ensures var con, h := Con(0, first), Con(3, o.owner);
            Run(first, w) ==
            History([Took(con), Sent(con, false, w.first.effect, w.first.reply), Released(con),
                     Took(h), Sent(h, false, w.second.effect, w.second.reply), Released(h)], Returned(w.second.reply))
  {
    hide RedirectionText, ParseHostPort, Contains, StateOf, Sane, NotDown, IsDown, AfterMoved, Behind;
    RedirectionIsRead(o);
    RedirectionsDiffer(o);
    assert Run(first, w) == Behind(FirstPart(first, w), AfterMoved(Con(3, o.owner), w));
    MovedLog(FirstPart(first, w), Con(3, o.owner), w);
    var con, h := Con(0, first), Con(3, o.owner);
    assert FirstPart(first, w) + [Took(h), Sent(h, false, w.second.effect, w.second.reply), Released(h)]
        == [Took(con), Sent(con, false, w.first.effect, w.first.reply), Released(con),
            Took(h), Sent(h, false, w.second.effect, w.second.reply), Released(h)];
  }

  lemma MovedLog(start: seq<Event>, h: Con, w: World)
    requires w.link.Good?
    ensures Behind(start, AfterMoved(h, w)) ==
            History(start + [Took(h), Sent(h, false, w.second.effect, w.second.reply), Released(h)], Returned(w.second.reply))
  {
  }

  /** ASK over a good connection: ASKING, and the command if that was answered well, to the importing node. */
  lemma AskRun(o: Ownership, first: Addr, w: World)
    requires Sane(o) && w.first.reply == Error(RedirectionText("ASK", o.slot, o.importing)) && w.link.Good?
    requires InMemory(w.first.reply) && w.asking.Data?
    ensures var con, h := Con(0, first), Con(3, o.importing);
            var log := [Took(con), Sent(con, false, w.first.effect, w.first.reply), Released(con),
                        Took(h), Asked(h), Sent(h, true, w.second.effect, w.second.reply)];
            Run(first, w) ==
            if w.second.reply.Null? || (w.second.reply.Error? && !NotDown(w.second.reply.text)) then History(log, Threw)
            else History(log + [Released(h)], Returned(w.second.reply))
  {
    hide RedirectionText, ParseHostPort, Contains, StateOf, Sane, NotDown, IsDown, AfterAsk, Behind, AskedWell;
    RedirectionIsRead(o);
    RedirectionsDiffer(o);
    DownIs(w.second.reply);
    assert Run(first, w) == Behind(FirstPart(first, w), AfterAsk(Con(3, o.importing), w));
    AskLog(FirstPart(first, w), Con(3, o.importing), w);
    var con, h := Con(0, first), Con(3, o.importing);
    assert FirstPart(first, w) + [Took(h), Asked(h), Sent(h, true, w.second.effect, w.second.reply)]
        == [Took(con), Sent(con, false, w.first.effect, w.first.reply), Released(con),
            Took(h), Asked(h), Sent(h, true, w.second.effect, w.second.reply)];
  }

  lemma AskLog(start: seq<Event>, h: Con, w: World)
    requires w.link.Good? && w.asking.Data?
    ensures var log := start + [Took(h), Asked(h), Sent(h, true, w.second.effect, w.second.reply)];
            Behind(start, AfterAsk(h, w)) ==
            if w.second.reply.Null? || IsDown(w.second.reply) then History(log, Threw)
            else History(log + [Released(h)], Returned(w.second.reply))
  {
    hide IsDown;
    assert start + ([Took(h), Asked(h), Sent(h, true, w.second.effect, w.second.reply)] + [Released(h)])
        == start + [Took(h), Asked(h), Sent(h, true, w.second.effect, w.second.reply)] + [Released(h)];
  }

  // ----- what every run keeps, and what it may lose

  /** The first send decides where the run goes. */
  lemma RunCases(o: Ownership, first: Addr, w: World)
    requires Sane(o) && Possible(o, first, w)
    ensures var reply, start := w.first.reply, FirstPart(first, w);
            Run(first, w) ==
            if reply.Null? || IsDown(reply) then History(start, Threw)
            else if IsAsk(o, reply) then Behind(start, AfterAsk(Con(3, o.importing), w))
            else if IsMoved(o, reply) then Behind(start, AfterMoved(Con(3, o.owner), w))
            else History(start, Returned(reply))
    ensures IsAsk(o, w.first.reply) ==> !w.first.effect && o.importing != o.owner && !IsMoved(o, w.first.reply)
    ensures IsMoved(o, w.first.reply) ==> !w.first.effect && first != o.owner
    ensures !w.first.reply.Null? && !IsDown(w.first.reply) && !IsAsk(o, w.first.reply) && !IsMoved(o, w.first.reply) ==>
              IsFinal(w.first.reply) && w.first.effect && first == o.owner
  {
    var reply := w.first.reply;
    RedirectionIsRead(o);
    RedirectionsDiffer(o);
    if !reply.Null? && !IsDown(reply) { FirstAnswer(o, first, w.first.effect, reply); }
    AnswersApart(o, first, w.first.effect, reply);
    hide AfterAsk, AfterMoved, FirstPart, RedirectionText, ParseHostPort, IsDown, StateOf, MayAnswer, Sane;
  }

  lemma RedirectionsDiffer(o: Ownership)
    requires Sane(o)
    ensures RedirectionText("ASK", o.slot, o.importing) != RedirectionText("MOVED", o.slot, o.owner)
    ensures !IsDown(Error(RedirectionText("ASK", o.slot, o.importing)))
    ensures !IsDown(Error(RedirectionText("MOVED", o.slot, o.owner)))
    ensures |RedirectionText("ASK", o.slot, o.importing)| < NPOS && |RedirectionText("MOVED", o.slot, o.owner)| < NPOS
  {
    RedirectionState(o);
  }

  /** Who may give a redirection, and that it has no effect. */
  lemma AnswersApart(o: Ownership, node: Addr, effect: bool, reply: Reply)
    requires Sane(o) && MayAnswer(o, node, false, effect, reply)
    ensures IsAsk(o, reply) ==> !effect && o.importing != o.owner
    ensures IsMoved(o, reply) ==> !effect && node != o.owner
    ensures reply.Error? && (IsAsk(o, reply) || IsMoved(o, reply) || !IsFinal(reply)) ==> !effect
  {
    RedirectionsDiffer(o);
    RedirectionState(o);
    hide RedirectionText, Contains;
  }

  /** When a taken connection is never given back: the redirection's connection was taken, and it is broken, or
      ASKING failed on it, or the command sent after ASKING did. */
  predicate Leaks(o: Ownership, w: World) {
    || (w.link.Broken? && (IsAsk(o, w.first.reply) || IsMoved(o, w.first.reply)))
    || (w.link.Good? && IsAsk(o, w.first.reply)
        && (w.asking.Null? || w.asking.Error? || w.second.reply.Null? || IsDown(w.second.reply)))
  }

  lemma FirstPartCounts(first: Addr, w: World)
    ensures var log := FirstPart(first, w);
            Held(log) == multiset{} && Sends(log) == 1 && Effects(log) == if w.first.effect then 1 else 0
  {
    var c := FirstCon(first);
    Push([], Took(c));
    Push([Took(c)], Sent(c, false, w.first.effect, w.first.reply));
    Push([Took(c), Sent(c, false, w.first.effect, w.first.reply)], Released(c));
    assert [] + [Took(c)] == [Took(c)];
    assert FirstPart(first, w) == [Took(c), Sent(c, false, w.first.effect, w.first.reply)] + [Released(c)];
  }

  lemma CountTwo(start: seq<Event>, a: Event, b: Event)
    ensures start + [a, b] == start + [a] + [b]
    ensures Held(start + [a, b]) == HeldAfter(HeldAfter(Held(start), a), b)
    ensures Sends(start + [a, b]) == Sends(start) + (if a.Sent? then 1 else 0) + (if b.Sent? then 1 else 0)
    ensures Effects(start + [a, b]) ==
            Effects(start) + (if a.Sent? && a.effect then 1 else 0) + (if b.Sent? && b.effect then 1 else 0)
  {
    assert start + [a, b] == start + [a] + [b];
    Push(start, a);
    Push(start + [a], b);
  }

  /** ASKING was accepted on a good connection, so the command is sent again. */
  predicate AskedWell(w: World) { w.link.Good? && w.asking.Data? }

  lemma AskCounts(start: seq<Event>, h: Con, w: World)
    requires Held(start) == multiset{}
    ensures var log := start + AfterAsk(h, w).log;
            && Held(log) == (if w.link.Unavailable? || AfterAsk(h, w).outcome.Returned? then multiset{} else multiset{h})
            && Sends(log) == Sends(start) + (if AskedWell(w) then 1 else 0)
            && Effects(log) == Effects(start) + (if AskedWell(w) && w.second.effect then 1 else 0)
  {
    if AskedWell(w) {
      AskedCounts(start, h, w);
    } else {
      assert start + [] == start;
      Push(start, Took(h));
      CountTwo(start, Took(h), Asked(h));
      hide Held, Sends, Effects;
    }
  }

  lemma AskedCounts(start: seq<Event>, h: Con, w: World)
    requires Held(start) == multiset{} && AskedWell(w)
    ensures var log := start + AfterAsk(h, w).log;
            && Held(log) == (if AfterAsk(h, w).outcome.Returned? then multiset{} else multiset{h})
            && Sends(log) == Sends(start) + 1 && Effects(log) == Effects(start) + if w.second.effect then 1 else 0
  {
    var asked, s := start + [Took(h), Asked(h)], Sent(h, true, w.second.effect, w.second.reply);
    CountTwo(start, Took(h), Asked(h));
    Push(asked, s);
    CountTwo(asked, s, Released(h));
    hide Held, Sends, Effects;
    assert start + [Took(h), Asked(h), s] == asked + [s];
    assert start + ([Took(h), Asked(h), s] + [Released(h)]) == asked + [s, Released(h)];
  }

  lemma MovedAppends(start: seq<Event>, h: Con, s: Event)
    ensures start + [Took(h), s, Released(h)] == start + [Took(h)] + [s, Released(h)]
  {
  }

  lemma MovedCounts(start: seq<Event>, h: Con, w: World)
    requires Held(start) == multiset{}
    ensures var log := start + AfterMoved(h, w).log;
            && Held(log) == (if w.link.Broken? then multiset{h} else multiset{})
            && Sends(log) == Sends(start) + (if w.link.Good? then 1 else 0)
            && Effects(log) == Effects(start) + (if w.link.Good? && w.second.effect then 1 else 0)
  {
    assert start + [] == start;
    Push(start, Took(h));
    var s := Sent(h, false, w.second.effect, w.second.reply);
    CountTwo(start + [Took(h)], s, Released(h));
    hide Held, Sends, Effects;
    MovedAppends(start, h, s);
  }

  /** At most two sends and one effect; and a connection is lost exactly in those worlds, never more than the
      redirection's, and never on a normal return. */
  lemma LeaksIff(o: Ownership, first: Addr, w: World)
    requires Sane(o) && Possible(o, first, w)
    ensures var h := Run(first, w);
            && Sends(h.log) <= 2 && Effects(h.log) <= 1
            && (Held(h.log) != multiset{} <==> Leaks(o, w))
            && |Held(h.log)| <= 1 && (Leaks(o, w) ==> h.outcome.Threw?)
  {
    RunCases(o, first, w);
    FirstPartCounts(first, w);
    AskCounts(FirstPart(first, w), Con(3, o.importing), w);
    MovedCounts(FirstPart(first, w), Con(3, o.owner), w);
    hide Held, Sends, Effects, Run, FirstPart;
    if w.first.reply.Null? { assert !IsAsk(o, w.first.reply) && !IsMoved(o, w.first.reply); }
  }

  /** A normal return is right unless it hands on what answered a redirected MOVED, and that is no answer. */
  lemma ReturnIsRightIff(o: Ownership, first: Addr, w: World)
    requires Sane(o) && Possible(o, first, w) && Run(first, w).outcome.Returned?
    ensures ExactlyOnce(o, Run(first, w)) <==> !IsMoved(o, w.first.reply) || IsFinal(w.second.reply)
  {
    RunCases(o, first, w);
    FirstPartCounts(first, w);
    hide Run, Held, Sends, Effects, IsFinal, IsDown, MayAnswer;
    if IsAsk(o, w.first.reply) {
      AskReturnIsRight(o, FirstPart(first, w), w);
    } else if IsMoved(o, w.first.reply) {
      MovedReturnIsRightIff(o, FirstPart(first, w), w);
    }
  }

  lemma LastThree(start: seq<Event>, t: Event, a: Event, b: Event, c: Event)
    ensures var log := start + [t, a, b, c];
            |log| >= 3 && log[|log| - 3] == a && log[|log| - 2] == b && log[|log| - 1] == c
  {
  }

  lemma AskReturnLog(h: Con, w: World)
    requires AfterAsk(h, w).outcome.Returned?
    ensures AskedWell(w) && AfterAsk(h, w).outcome.reply == w.second.reply
    ensures !w.second.reply.Null? && !IsDown(w.second.reply)
    ensures AfterAsk(h, w).log == [Took(h), Asked(h), Sent(h, true, w.second.effect, w.second.reply), Released(h)]
  {
    hide IsDown;
  }

  lemma AskReturnIsRight(o: Ownership, start: seq<Event>, w: World)
    requires Sane(o) && Held(start) == multiset{} && Effects(start) == 0 && o.importing != o.owner
    requires MayAnswer(o, o.importing, w.asking.Data?, w.second.effect, w.second.reply)
    requires AfterAsk(Con(3, o.importing), w).outcome.Returned?
    ensures ExactlyOnce(o, Behind(start, AfterAsk(Con(3, o.importing), w)))
  {
    var h := Con(3, o.importing);
    AskReturnLog(h, w);
    AskCounts(start, h, w);
    SecondAnswer(o, o.importing, true, w.second);
    LastThree(start, Took(h), Asked(h), Sent(h, true, w.second.effect, w.second.reply), Released(h));
    hide Held, Sends, Effects, IsFinal, IsDown, MayAnswer, Sane, AfterAsk;
  }

  lemma MovedReturnIsRightIff(o: Ownership, start: seq<Event>, w: World)
    requires Sane(o) && Held(start) == multiset{} && Effects(start) == 0
    requires MayAnswer(o, o.owner, false, w.second.effect, w.second.reply)
    requires AfterMoved(Con(3, o.owner), w).outcome.Returned?
    ensures ExactlyOnce(o, Behind(start, AfterMoved(Con(3, o.owner), w))) <==> IsFinal(w.second.reply)
  {
    MovedCounts(start, Con(3, o.owner), w);
    SecondAnswer(o, o.owner, false, w.second);
    hide Held, Sends, Effects, IsFinal, IsDown, MayAnswer, Sane;
  }

  lemma SecondAnswer(o: Ownership, node: Addr, asked: bool, second: Answer)
    requires Sane(o) && MayAnswer(o, node, asked, second.effect, second.reply)
    requires node == o.owner || (node == o.importing != o.owner && asked)
    ensures IsFinal(second.reply) ==> second.effect
    ensures node != o.owner && !second.reply.Null? && !IsDown(second.reply) ==> IsFinal(second.reply)
  {
    RedirectionState(o);
    hide RedirectionText, Contains;
  }

  /** MOVED, and then the redirected command's connection is lost. */
  function LostBehindMoved(o: Ownership): World {
    World(Answer(false, Error(RedirectionText("MOVED", o.slot, o.owner))), Good, Null, Answer(false, Null))
  }

  /** MOVED, and then the owner says where the slot is moving to. */
  function AskBehindMoved(o: Ownership): World {
    LostBehindMoved(o).(second := Answer(false, Error(RedirectionText("ASK", o.slot, o.importing))))
  }

  lemma StaleRun(o: Ownership, first: Addr, w: World)
    requires Sane(o) && first != o.owner
    requires w == LostBehindMoved(o) || (w == AskBehindMoved(o) && o.owner != o.importing)
    ensures Possible(o, first, w)
    ensures var h := Con(3, o.owner);
            Run(first, w) == History(FirstPart(first, w) + [Took(h), Sent(h, false, false, w.second.reply), Released(h)],
                                     Returned(w.second.reply))
    ensures !IsFinal(w.second.reply)
  {
    RedirectionsDiffer(o);
    RedirectionState(o);
    hide RedirectionText, Contains;
    RunCases(o, first, w);
  }

  /** With the slot table fresh every normal return means the command took effect exactly once; with any other
      first node there is a run that returns without it. */
  lemma ExactlyOnceIff(o: Ownership, first: Addr)
    requires Sane(o)
    ensures first == o.owner <==>
            forall w | Possible(o, first, w) && Run(first, w).outcome.Returned? :: ExactlyOnce(o, Run(first, w))
  {
    if first == o.owner {
      forall w | Possible(o, first, w) && Run(first, w).outcome.Returned? ensures ExactlyOnce(o, Run(first, w)) {
        ReturnIsRightIff(o, first, w);
        RunCases(o, first, w);
        hide Run, ExactlyOnce;
      }
    } else {
      var w := LostBehindMoved(o);
      StaleRun(o, first, w);
      assert !ExactlyOnce(o, Run(first, w));
    }
  }

  /** A stale slot table and a slot on the move: a run that returns the owner's ASK as if it were the answer. */
  lemma MovedThenAsk(o: Ownership, first: Addr)
    requires Sane(o) && first != o.owner && o.importing != o.owner
    ensures exists w | Possible(o, first, w) ::
              && Run(first, w).outcome == Returned(Error(RedirectionText("ASK", o.slot, o.importing)))
              && Effects(Run(first, w).log) == 0
  {
    var w := AskBehindMoved(o);
    StaleRun(o, first, w);
    FirstPartCounts(first, w);
    RedirectionsDiffer(o);
    MovedCounts(FirstPart(first, w), Con(3, o.owner), w);
    hide Run, Held, Sends, Effects, RedirectionText;
    assert Possible(o, first, w);
  }

  /** A connection that broke behind MOVED goes back to its pool; whoever is redirected over it next loses it. */
  lemma BrokenComesBack(o: Ownership, first: Addr)
    requires Sane(o) && first != o.owner
    ensures var h, lost := Con(3, o.owner), LostBehindMoved(o);
            Possible(o, first, lost)
            && Run(first, lost).log == FirstPart(first, lost) + [Took(h), Sent(h, false, false, Null), Released(h)]
    ensures var next := LostBehindMoved(o).(link := Broken);
            Possible(o, first, next) && Held(Run(first, next).log) != multiset{}
  {
    var lost := LostBehindMoved(o);
    StaleRun(o, first, lost);
    assert Possible(o, first, lost.(link := Broken));
    hide Run, Held, Possible, FirstPart, RedirectionText, Sane;
    LeaksIff(o, first, lost.(link := Broken));
  }

  /** ASK, and then the connection is lost before ASKING is answered. */
  function LostBehindAsk(o: Ownership): World {
    World(Answer(false, Error(RedirectionText("ASK", o.slot, o.importing))), Good, Null, Answer(false, Null))
  }

  lemma AskRunLeaks(o: Ownership)
    requires Sane(o) && o.importing != o.owner
    ensures Possible(o, o.owner, LostBehindAsk(o)) && Leaks(o, LostBehindAsk(o))
  {
    RedirectionsDiffer(o);
    hide RedirectionText, IsDown, Sane;
  }

  /** No run loses a connection if and only if the slot table is fresh and the slot is not on the move. */
  lemma NeverLeaksIff(o: Ownership, first: Addr)
    requires Sane(o)
    ensures (forall w | Possible(o, first, w) :: Held(Run(first, w).log) == multiset{}) <==> first == o.owner == o.importing
  {
    if first != o.owner {
      BrokenComesBack(o, first);
      assert Possible(o, first, LostBehindMoved(o).(link := Broken));
    } else if o.owner != o.importing {
      AskRunLeaks(o);
      LeaksIff(o, first, LostBehindAsk(o));
    } else {
      forall w | Possible(o, first, w) ensures Held(Run(first, w).log) == multiset{} {
        RunCases(o, first, w);
        LeaksIff(o, first, w);
        hide Run, Held, Sends, Effects, Possible, IsAsk, IsMoved;
      }
    }
  }

  const ON_THE_MOVE: Ownership := Ownership("7", Addr("a", "1"), Addr("b", "2"))

  /** Such ownerships exist. */
  lemma OnTheMoveTexts()
    ensures Sane(ON_THE_MOVE)
  {
    var moved, ask := RedirectionText("MOVED", "7", Addr("a", "1")), RedirectionText("ASK", "7", Addr("b", "2"));
    assert |moved| == 11 && moved[0] == 'M' && |ask| == 9;
    assert moved[0] != "CLUSTERDOWN"[0];
    assert forall i: nat :: !OccursAt(moved, "CLUSTERDOWN", i);
  }

  // ----- the call

  /** The events behind ASK, one by one. */
  lemma AskOutcomes(start: seq<Event>, h: Con, w: World)
    ensures w.link.Unavailable? ==> Behind(start, AfterAsk(h, w)) == History(start, Threw)
    ensures w.link.Broken? ==> Behind(start, AfterAsk(h, w)) == History(start + [Took(h)], Threw)
    ensures w.link.Good? && !AskedWell(w) ==> Behind(start, AfterAsk(h, w)) == History(start + [Took(h)] + [Asked(h)], Threw)
    ensures AskedWell(w) ==>
              var log := start + [Took(h)] + [Asked(h)] + [Sent(h, true, w.second.effect, w.second.reply)];
              Behind(start, AfterAsk(h, w)) ==
              if w.second.reply.Null? || IsDown(w.second.reply) then History(log, Threw)
              else History(log + [Released(h)], Returned(w.second.reply))
  {
    hide IsDown;
    var s := Sent(h, true, w.second.effect, w.second.reply);
    assert start + [] == start;
    assert start + [Took(h), Asked(h)] == start + [Took(h)] + [Asked(h)];
    assert start + [Took(h), Asked(h), s] == start + [Took(h)] + [Asked(h)] + [s];
    assert start + ([Took(h), Asked(h), s] + [Released(h)]) == start + [Took(h)] + [Asked(h)] + [s] + [Released(h)];
  }

  lemma MovedOutcomes(start: seq<Event>, h: Con, w: World)
    ensures w.link.Unavailable? ==> Behind(start, AfterMoved(h, w)) == History(start, Threw)
    ensures w.link.Broken? ==> Behind(start, AfterMoved(h, w)) == History(start + [Took(h)], Threw)
    ensures w.link.Good? ==>
              Behind(start, AfterMoved(h, w)) ==
              History(start + [Took(h)] + [Sent(h, false, w.second.effect, w.second.reply)] + [Released(h)],
                      Returned(w.second.reply))
  {
    var s := Sent(h, false, w.second.effect, w.second.reply);
    assert start + [] == start;
    assert start + [Took(h), s, Released(h)] == start + [Took(h)] + [s] + [Released(h)];
  }

  class HiredisCommand {
    const world: World
    var log: seq<Event>
    var askingFlags: set<Con>   // on the nodes: connections whose next command is served as asked

    constructor (world: World)
      ensures this.world == world && log == [] && askingFlags == {}
    {
      this.world, log, askingFlags := world, [], {};
    }

    method Take(node: Addr) returns (con: Con)
      modifies `log
      ensures con == Con(|old(log)|, node) && log == old(log) + [Took(con)]
    {
      con := Con(|log|, node);
      log := log + [Took(con)];
    }

    method Release(con: Con)
      modifies `log
      ensures log == old(log) + [Released(con)]
    {
      log := log + [Released(con)];
    }

    method Asking(con: Con) returns (reply: Reply)
      modifies `log, `askingFlags
      ensures log == old(log) + [Asked(con)] && reply == world.asking
      ensures askingFlags == old(askingFlags) + if reply.Data? then {con} else {}
    {
      reply := world.asking;
      log := log + [Asked(con)];
      if reply.Data? {
        askingFlags := askingFlags + {con};
      }
    }

    /** Sends the command. */
    method Send(con: Con, answer: Answer) returns (reply: Reply)
      modifies `log, `askingFlags
      ensures log == old(log) + [Sent(con, con in old(askingFlags), answer.effect, reply)] && reply == answer.reply
      ensures askingFlags == old(askingFlags) - {con}
    {
      reply := answer.reply;
      log, askingFlags := log + [Sent(con, con in askingFlags, answer.effect, reply)], askingFlags - {con};
    }

    /** The connection of a redirection, from its pool. */
    method CreateNewConnection(to: HostPort) returns (con: Con, link: Link)
      requires to.Parsed?
      modifies `log
      ensures link == world.link && con == Con(|old(log)|, Addr(to.host, to.port))
      ensures log == old(log) + if link.Unavailable? then [] else [Took(con)]
    {
      con, link := Con(|log|, Addr(to.host, to.port)), world.link;
      if !link.Unavailable? {
        con := Take(con.node);
      }
    }

    /** ASKING and the command again, on one connection to the importing node; every throw on the way keeps the
        connection. */
    method FollowAsk(reply: Reply) returns (r: Outcome)
      requires |log| == 3 && reply.Error? && InMemory(reply) && askingFlags == {}
      modifies `log, `askingFlags
      ensures History(log, r) == Behind(old(log), AfterAsk(HostCon(reply), world))
    {
      hide ParseHostPort, HostPosition, IsDown, AfterAsk, Behind;
      NeverRejects(reply.text);
      AskOutcomes(log, HostCon(reply), world);
      var hcon, link := CreateNewConnection(ParseHostPort(reply.text));
      if !link.Good? {
        return Threw;
      }
      var asking := Asking(hcon);
      if asking.Null? || asking.Error? {
        return Threw;
      }
      var answer := Send(hcon, world.second);
      if answer.Null? || IsDown(answer) {
        return Threw;
      }
      Release(hcon);
      return Returned(answer);
    }

    /** The command again, on a connection to the owner; its reply is not checked. A broken connection makes
        this throw before the release. */
    method FollowMoved(reply: Reply) returns (r: Outcome)
      requires |log| == 3 && reply.Error? && InMemory(reply) && askingFlags == {}
      modifies `log, `askingFlags
      ensures History(log, r) == Behind(old(log), AfterMoved(HostCon(reply), world))
    {
      hide ParseHostPort, HostPosition, AfterMoved, Behind;
      NeverRejects(reply.text);
      MovedOutcomes(log, HostCon(reply), world);
      var hcon, link := CreateNewConnection(ParseHostPort(reply.text));
      if !link.Good? {
        return Threw;
      }
      var answer := Send(hcon, world.second);
      Release(hcon);
      return Returned(answer);
    }

    /** One command, first sent to the node the client's slot table names. */
    method Process(first: Addr) returns (r: Outcome)
      requires log == [] && askingFlags == {} && InMemory(world.first.reply)
      modifies `log, `askingFlags
      ensures History(log, r) == Run(first, world)
    {
      hide ParseHostPort, IsDown, StateOf, HostCon, AfterAsk, AfterMoved;
      var con := Take(first);
      var reply := Send(con, world.first);
      Release(con);
      if reply.Null? || IsDown(reply) {
        return Threw;
      }
      var state := if reply.Error? then StateOf(reply.text) else Ready;
      if state == AskTo {
        r := FollowAsk(reply);
      } else if state == MovedTo {
        r := FollowMoved(reply);
      } else if state == Ready {
        r := Returned(reply);
      } else {
        r := Threw;
      }
    }
  }
}
