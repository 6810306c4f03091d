/**
 The copy of a vCenter inventory that is kept up to date from change sets, and the mappings that
 are sent from it (esx/esx.py). The server's answers are inputs.
 */
module InventoryMirror {
  import opened Options

  datatype Property = One(text: string) | Several(items: seq<string>)

  type Properties = map<string, Property>

  type Objects = map<string, Properties>

  /** One change of a property; an assignment may come without a value. */
  datatype Change =
    | Assign(name: string, val: Option<Property>)
    | Remove(name: string)
    | IndirectRemove(name: string)
    | Add(name: string, item: string)

  datatype Kind = Enter | Modify | Leave | OtherKind

  datatype Type = VirtualMachine | HostSystem | OtherType

  datatype ObjectUpdate = ObjectUpdate(target: Type, id: string, kind: Kind, changes: seq<Change>)

  datatype Mirror = Mirror(hosts: Objects, vms: Objects)

  const EMPTY := Mirror(map[], map[])

  // ----- what the changes are meant to do -----

  /** The property collector's own reading of a change. */
  function Meant(p: Properties, c: Change): Properties {
    match c
    case Assign(name, val) => if val.Some? then p[name := val.value] else p
    case Remove(name) => p - {name}
    case IndirectRemove(name) => p - {name}
    case Add(name, item) => if name in p && p[name].Several? then p[name := Several(p[name].items + [item])] else p
  }

  function MeantAll(p: Properties, changes: seq<Change>): Properties
    decreases changes
  {
    if changes == [] then p else MeantAll(Meant(p, changes[0]), changes[1..])
  }

  function MeantUpdate(objects: Objects, u: ObjectUpdate): Objects {
    match u.kind
    case Enter => objects[u.id := MeantAll(map[], u.changes)]
    case Modify => if u.id in objects then objects[u.id := MeantAll(objects[u.id], u.changes)] else objects
    case Leave => objects - {u.id}
    case OtherKind => objects
  }

  function MeantSet(m: Mirror, updates: seq<ObjectUpdate>): Mirror
    decreases updates
  {
    if updates == [] then m
    else
      var u := updates[0];
      MeantSet(match u.target
               case VirtualMachine => m.(vms := MeantUpdate(m.vms, u))
               case HostSystem => m.(hosts := MeantUpdate(m.hosts, u))
               case OtherType => m,
               updates[1..])
  }

  // ----- what is done with them -----

  /** A change of a virtual machine; None when it adds to something that is no list. */
  function ChangeVm(p: Properties, c: Change): Option<Properties> {
    match c
    case Assign(name, val) => Some(if val.Some? then p[name := val.value] else p)
    case Remove(name) => Some(p - {name})
    case IndirectRemove(name) => Some(p - {name})
    case Add(name, item) =>
      if name in p && p[name].Several? then Some(p[name := Several(p[name].items + [item])]) else None
  }

  function ChangeVmAll(p: Properties, changes: seq<Change>): Option<Properties>
    decreases changes
  {
    if changes == [] then Some(p)
    else
      var next := ChangeVm(p, changes[0]);
      if next.None? then None else ChangeVmAll(next.value, changes[1..])
  }

  /** Only assignments change a host. */
  function ChangeHost(p: Properties, c: Change): Properties {
    if c.Assign? && c.val.Some? then p[c.name := c.val.value] else p
  }

  function ChangeHostAll(p: Properties, changes: seq<Change>): Properties
    decreases changes
  {
    if changes == [] then p else ChangeHostAll(ChangeHost(p, changes[0]), changes[1..])
  }

  function PropertiesOf(objects: Objects, id: string): Properties {
    if id in objects then objects[id] else map[]
  }

  /** Objects are made when they are first looked up; one that leaves must be there. */
  function UpdateVms(vms: Objects, u: ObjectUpdate): Option<Objects> {
    match u.kind
    case Leave => if u.id in vms then Some(vms - {u.id}) else None
    case OtherKind => Some(vms)
    case _ =>
      var p := ChangeVmAll(PropertiesOf(vms, u.id), u.changes);
      if p.None? then None else Some(vms[u.id := p.value])
  }

  function UpdateHosts(hosts: Objects, u: ObjectUpdate): Option<Objects> {
    match u.kind
    case Leave => if u.id in hosts then Some(hosts - {u.id}) else None
    case OtherKind => Some(hosts)
    case _ => Some(hosts[u.id := ChangeHostAll(PropertiesOf(hosts, u.id), u.changes)])
  }

  function Update(m: Mirror, u: ObjectUpdate): Option<Mirror> {
    match u.target
    case VirtualMachine =>
      var vms := UpdateVms(m.vms, u);
      if vms.None? then None else Some(m.(vms := vms.value))
    case HostSystem =>
      var hosts := UpdateHosts(m.hosts, u);
      if hosts.None? then None else Some(m.(hosts := hosts.value))
    case OtherType => Some(m)
  }

  function UpdateAll(m: Mirror, updates: seq<ObjectUpdate>): Option<Mirror>
    decreases updates
  {
    if updates == [] then Some(m)
    else
      var next := Update(m, updates[0]);
      if next.None? then None else UpdateAll(next.value, updates[1..])
  }

  // ----- when both agree -----

  /** Whether a name is given a value. */
  predicate Assigned(changes: seq<Change>, name: string) {
    exists i :: 0 <= i < |changes| && changes[i].Assign? && changes[i].name == name && changes[i].val.Some?
  }

  /** Each change is one that a host takes as meant, or is made good by a later assignment. */
  predicate Keeps(p: Properties, changes: seq<Change>)
    decreases changes
  {
    changes == []
    || ((Meant(p, changes[0]) == ChangeHost(p, changes[0]) || Assigned(changes[1..], changes[0].name))
        && Keeps(Meant(p, changes[0]), changes[1..]))
  }

  /** Lists are only added to where they are. */
  predicate AddsToLists(p: Properties, changes: seq<Change>)
    decreases changes
  {
    changes == []
    || ((changes[0].Add? ==> changes[0].name in p && p[changes[0].name].Several?)
        && AddsToLists(Meant(p, changes[0]), changes[1..]))
  }

  /** Objects enter when they are not there, and change and leave while they are. */
  predicate Placed(objects: Objects, u: ObjectUpdate) {
    !u.kind.OtherKind? && (u.kind.Enter? <==> u.id !in objects)
  }

  predicate Fits(objects: Objects, u: ObjectUpdate, host: bool) {
    && Placed(objects, u)
    && (u.kind.Leave? || if host then Keeps(PropertiesOf(objects, u.id), u.changes)
                         else AddsToLists(PropertiesOf(objects, u.id), u.changes))
  }

  predicate AllFit(m: Mirror, updates: seq<ObjectUpdate>)
    decreases updates
  {
    updates == []
    || (&& (updates[0].target.VirtualMachine? ==> Fits(m.vms, updates[0], false))
        && (updates[0].target.HostSystem? ==> Fits(m.hosts, updates[0], true))
        && AllFit(MeantSet(m, updates[..1]), updates[1..]))
  }

  /** A machine changes as meant exactly when lists are only added to where they are. */
  lemma {:induction false} VmChangesAsMeantIff(p: Properties, changes: seq<Change>)
    ensures ChangeVmAll(p, changes) == Some(MeantAll(p, changes)) <==> AddsToLists(p, changes)
    ensures ChangeVmAll(p, changes).None? <==> !AddsToLists(p, changes)
    decreases changes
  {
    if changes != [] && ChangeVm(p, changes[0]).Some? {
      VmChangesAsMeantIff(Meant(p, changes[0]), changes[1..]);
    }
  }

  // ----- hosts, name by name -----

  predicate SameAt(p: Properties, q: Properties, name: string) {
    (name in p <==> name in q) && (name in p ==> p[name] == q[name])
  }

  /** What is meant of a name is as in the copy, or gone, or a list that has outgrown it. */
  predicate NoneAhead(p: Properties, q: Properties, name: string) {
    name in p ==> name in q && (p[name] == q[name]
                                || (p[name].Several? && q[name].Several? && |p[name].items| > |q[name].items|))
  }

  predicate KeepsName(p: Properties, changes: seq<Change>, name: string)
    decreases changes
  {
    changes == []
    || ((changes[0].name == name ==> Meant(p, changes[0]) == ChangeHost(p, changes[0]) || Assigned(changes[1..], name))
        && KeepsName(Meant(p, changes[0]), changes[1..], name))
  }

  lemma AssignedNext(changes: seq<Change>, name: string)
    requires changes != []
    ensures Assigned(changes, name) <==>
              (changes[0].Assign? && changes[0].name == name && changes[0].val.Some?) || Assigned(changes[1..], name)
  {
    if Assigned(changes[1..], name) {
      var i :| 0 <= i < |changes[1..]| && changes[1..][i].Assign? && changes[1..][i].name == name
        && changes[1..][i].val.Some?;
      assert changes[i + 1] == changes[1..][i];
    }
    if Assigned(changes, name) {
      var i :| 0 <= i < |changes| && changes[i].Assign? && changes[i].name == name && changes[i].val.Some?;
      assert i > 0 ==> changes[1..][i - 1] == changes[i];
    }
  }

  /** One change, seen from one name. */
  lemma ChangeAtName(p: Properties, q: Properties, c: Change, name: string)
    requires NoneAhead(p, q, name)
    ensures NoneAhead(Meant(p, c), ChangeHost(q, c), name)
    ensures c.name != name ==> (SameAt(Meant(p, c), ChangeHost(q, c), name) <==> SameAt(p, q, name))
    ensures c.name == name && Meant(p, c) != ChangeHost(p, c) ==> !SameAt(Meant(p, c), ChangeHost(q, c), name)
    ensures c.name == name && Meant(p, c) == ChangeHost(p, c) ==>
              (SameAt(Meant(p, c), ChangeHost(q, c), name) <==> (c.Assign? && c.val.Some?) || SameAt(p, q, name))
  {
    if (c.Remove? || c.IndirectRemove?) && c.name !in p {
      assert p - {c.name} == p;
    }
    if c.Add? && c.name in p && p[c.name].Several? {
      assert Meant(p, c)[c.name].items != p[c.name].items;
    }
  }

  lemma {:induction false} NameKeptIff(p: Properties, q: Properties, changes: seq<Change>, name: string)
    requires NoneAhead(p, q, name)
    ensures SameAt(MeantAll(p, changes), ChangeHostAll(q, changes), name) <==>
              (SameAt(p, q, name) || Assigned(changes, name)) && KeepsName(p, changes, name)
    decreases changes
  {
    if changes != [] {
      ChangeAtName(p, q, changes[0], name);
      AssignedNext(changes, name);
      NameKeptIff(Meant(p, changes[0]), ChangeHost(q, changes[0]), changes[1..], name);
    }
  }

  lemma {:induction false} KeepsEachName(p: Properties, changes: seq<Change>, name: string)
    requires Keeps(p, changes)
    ensures KeepsName(p, changes, name)
    decreases changes
  {
    if changes != [] {
      KeepsEachName(Meant(p, changes[0]), changes[1..], name);
    }
  }

  lemma {:induction false} NamesKept(p: Properties, changes: seq<Change>)
    requires forall name :: KeepsName(p, changes, name)
    ensures Keeps(p, changes)
    decreases changes
  {
    if changes != [] {
      assert KeepsName(p, changes, changes[0].name);
      forall name ensures KeepsName(Meant(p, changes[0]), changes[1..], name) {
        assert KeepsName(p, changes, name);
      }
      NamesKept(Meant(p, changes[0]), changes[1..]);
    }
  }

  lemma SameEverywhere(p: Properties, q: Properties)
    requires forall name :: SameAt(p, q, name)
    ensures p == q
  {
    assert forall name :: name in p ==> SameAt(p, q, name);
    assert forall name :: name in q ==> SameAt(p, q, name);
  }

  /** A host changes as meant exactly when each change is taken as meant or made good by a later assignment. */
  lemma HostChangesAsMeantIff(p: Properties, changes: seq<Change>)
    ensures ChangeHostAll(p, changes) == MeantAll(p, changes) <==> Keeps(p, changes)
  {
    var meant, done := MeantAll(p, changes), ChangeHostAll(p, changes);
    forall name ensures SameAt(meant, done, name) <==> KeepsName(p, changes, name) {
      NameKeptIff(p, p, changes, name);
    }
    if Keeps(p, changes) {
      forall name ensures SameAt(meant, done, name) {
        KeepsEachName(p, changes, name);
      }
      SameEverywhere(meant, done);
    }
    if done == meant {
      forall name ensures KeepsName(p, changes, name) {
        assert SameAt(meant, done, name);
      }
      NamesKept(p, changes);
    }
  }

  lemma {:induction false} UpdatesAsMeant(m: Mirror, updates: seq<ObjectUpdate>)
    requires AllFit(m, updates)
    ensures UpdateAll(m, updates) == Some(MeantSet(m, updates))
    decreases updates
  {
    if updates != [] {
      var u := updates[0];
      if u.target.VirtualMachine? && !u.kind.Leave? {
        VmChangesAsMeantIff(PropertiesOf(m.vms, u.id), u.changes);
      } else if u.target.HostSystem? && !u.kind.Leave? {
        HostChangesAsMeantIff(PropertiesOf(m.hosts, u.id), u.changes);
      }
      assert updates[..1] == [u] && [u][1..] == [];
      UpdatesAsMeant(MeantSet(m, [u]), updates[1..]);
      assert Update(m, u) == Some(MeantSet(m, [u]));
    }
  }

  /** Each update of a host is applied as meant exactly when it leaves, or keeps to its changes. */
  lemma HostUpdateAsMeantIff(hosts: Objects, u: ObjectUpdate)
    requires Placed(hosts, u)
    ensures UpdateHosts(hosts, u) == Some(MeantUpdate(hosts, u)) <==> Fits(hosts, u, true)
  {
    var p := PropertiesOf(hosts, u.id);
    HostChangesAsMeantIff(p, u.changes);
    if !u.kind.Leave? {
      assert hosts[u.id := ChangeHostAll(p, u.changes)][u.id] == ChangeHostAll(p, u.changes);
      assert MeantUpdate(hosts, u)[u.id] == MeantAll(p, u.changes);
    }
  }

  /** What cannot be applied: a machine or host that leaves but is not there, or an addition to what is no list. */
  lemma UpdateFailsIff(m: Mirror, u: ObjectUpdate)
    ensures Update(m, u).None? <==>
              || (u.target.VirtualMachine? && u.kind.Leave? && u.id !in m.vms)
              || (u.target.HostSystem? && u.kind.Leave? && u.id !in m.hosts)
              || (u.target.VirtualMachine? && (u.kind.Enter? || u.kind.Modify?)
                  && !AddsToLists(if u.id in m.vms then m.vms[u.id] else map[], u.changes))
  {
    VmChangesAsMeantIff(PropertiesOf(m.vms, u.id), u.changes);
  }

  /** A property removed from a host stays in the copy. */
  lemma HostRemovalIsMissed(hosts: Objects, id: string, name: string)
    requires id in hosts && name in hosts[id]
    ensures var u := ObjectUpdate(HostSystem, id, Modify, [Remove(name)]);
            && UpdateHosts(hosts, u).Some? && name in UpdateHosts(hosts, u).value[id]
            && name !in MeantUpdate(hosts, u)[id]
  {
    var changes, p := [Remove(name)], hosts[id];
    assert changes[1..] == [];
    assert ChangeHostAll(p, changes) == ChangeHostAll(p, []) == p;
    assert MeantAll(p, changes) == MeantAll(p - {name}, []) == p - {name};
  }

  // ----- the loop -----

  datatype UpdateSet = UpdateSet(version: string, updates: seq<ObjectUpdate>, truncated: bool)

  /** What a wait for updates comes to; due tells whether the interval has passed by then. */
  datatype Response = Reply(news: Option<UpdateSet>, due: bool) | Timeout | Canceled | Failed

  const BOGUS_VERSION := "last_version"

  datatype Loop = Loop(version: string, lastVersion: string, mirror: Mirror, sent: seq<Mirror>, running: bool)

  const START := Loop("", BOGUS_VERSION, EMPTY, [], true)

  /** One turn of the loop. An error in applying updates makes the thread start over. */
  function Step(l: Loop, r: Response, oneshot: bool): Loop {
    var mirror := if l.version == "" then EMPTY else l.mirror;
    match r
    case Timeout => l.(version := "", mirror := mirror)
    case Failed => l.(version := "", mirror := mirror)
    case Canceled => l.(mirror := mirror)
    case Reply(news, due) =>
      var applied := if news.None? then Some(mirror) else UpdateAll(mirror, news.value.updates);
      if applied.None? then Loop("", BOGUS_VERSION, EMPTY, l.sent, !oneshot)
      else
        var next := l.(version := if news.None? then l.version else news.value.version, mirror := applied.value);
        if news.Some? && news.value.truncated then next else Send(next, due).(running := !oneshot)
  }

  /** The mapping is sent when the version has changed or the interval has passed. */
  function Send(l: Loop, due: bool): Loop {
    if l.lastVersion != l.version || due then l.(sent := l.sent + [l.mirror], lastVersion := l.version) else l
  }

  function Run(l: Loop, script: seq<Response>, oneshot: bool): Loop
    decreases script
  {
    if script == [] || !l.running then l else Run(Step(l, script[0], oneshot), script[1..], oneshot)
  }

  /** What the server has told the client: nothing since a reset, or a view that may be partial. */
  datatype Session = Reset | At(view: Mirror, partial: bool)

  function ViewOf(session: Session): Mirror {
    if session.Reset? then EMPTY else session.view
  }

  /** The session after a response. */
  function Onward(session: Session, r: Response): Session {
    match r
    case Timeout => Reset
    case Failed => Reset
    case Canceled => session
    case Reply(news, _) => if news.None? then session
      else At(MeantSet(ViewOf(session), news.value.updates), news.value.truncated)
  }

  /**
   The server answers honestly: its change sets fit what the client was told, carry a version, and lead to its
   inventory unless they are truncated, and it says that nothing has changed only to a client that was told all.
   */
  ghost predicate Honest(session: Session, r: Response, inventory: Mirror) {
    r.Reply? ==>
      if r.news.None? then session.At? && !session.partial && session.view == inventory
      else
        && r.news.value.version != "" && AllFit(ViewOf(session), r.news.value.updates)
        && (!r.news.value.truncated ==> MeantSet(ViewOf(session), r.news.value.updates) == inventory)
  }

  ghost predicate AllHonest(session: Session, script: seq<Response>, inventories: seq<Mirror>)
    requires |inventories| == |script|
    decreases script
  {
    script == []
    || (Honest(session, script[0], inventories[0])
        && AllHonest(Onward(session, script[0]), script[1..], inventories[1..]))
  }

  /** The copy is what the server has told, unless the client starts over. */
  ghost predicate Follows(l: Loop, session: Session) {
    (l.version == "" <==> session.Reset?) && (session.At? ==> l.mirror == session.view)
  }

  /** A step keeps the copy in line with the server, and sends nothing but its whole inventory. */
  lemma {:induction false} StepFollows(l: Loop, session: Session, r: Response, inventory: Mirror, oneshot: bool)
    requires Follows(l, session) && Honest(session, r, inventory)
    ensures Follows(Step(l, r, oneshot), Onward(session, r))
    ensures Step(l, r, oneshot).sent == l.sent
            || (Step(l, r, oneshot).sent == l.sent + [inventory]
                && !(r.Reply? && r.news.Some? && r.news.value.truncated))
  {
    if r.Reply? && r.news.Some? {
      UpdatesAsMeant(ViewOf(session), r.news.value.updates);
    }
  }

  /** When updates cannot be applied nothing is sent, the copy is given up, and the next complete answer is sent. */
  lemma FailedUpdatesStartOver(l: Loop, news: UpdateSet, due: bool, oneshot: bool, r: Response, inventory: Mirror)
    requires UpdateAll(if l.version == "" then EMPTY else l.mirror, news.updates).None?
    requires Honest(Reset, r, inventory) && IsComplete(r) && (r.news.Some? ==> r.news.value.version != BOGUS_VERSION)
    ensures var next := Step(l, Reply(Some(news), due), oneshot);
            && next.sent == l.sent && next.version == "" && next.mirror.hosts == map[] && next.mirror.vms == map[]
            && next.running == !oneshot && (next.running ==> Step(next, r, oneshot).sent == l.sent + [inventory])
  {
    var next := Step(l, Reply(Some(news), due), oneshot);
    if next.running {
      SendsExactly(next, Reset, r, inventory, oneshot);
    }
  }

  /** The version after an answer. */
  function VersionAfter(version: string, r: Response): string {
    match r
    case Timeout => ""
    case Failed => ""
    case Canceled => version
    case Reply(news, _) => if news.None? then version else news.value.version
  }

  /**
   A complete answer sends the inventory exactly when its version is not the one that was sent last, or the interval
   has passed, and every other answer sends nothing. One-shot mode ends with the first complete answer.
   */
  lemma {:induction false} SendsExactly(l: Loop, session: Session, r: Response, inventory: Mirror, oneshot: bool)
    requires Follows(l, session) && Honest(session, r, inventory) && l.running
    ensures var next, version := Step(l, r, oneshot), VersionAfter(l.version, r);
            var sends := IsComplete(r) && (version != l.lastVersion || r.due);
            && next.version == version
            && next.sent == (if sends then l.sent + [inventory] else l.sent)
            && next.lastVersion == (if sends then version else l.lastVersion)
            && next.running == !(oneshot && IsComplete(r))
  {
    StepFollows(l, session, r, inventory, oneshot);
    if r.Reply? && r.news.Some? {
      UpdatesAsMeant(ViewOf(session), r.news.value.updates);
    }
  }

  /** The inventories that are to be sent: those at complete answers with another version than the last, or due. */
  function ToSend(script: seq<Response>, inventories: seq<Mirror>, version: string, last: string,
                  oneshot: bool): seq<Mirror>
    requires |inventories| == |script|
    decreases script
  {
    if script == [] then []
    else
      var v := VersionAfter(version, script[0]);
      var sends := IsComplete(script[0]) && (v != last || script[0].due);
      (if sends then [inventories[0]] else [])
      + if oneshot && IsComplete(script[0]) then []
        else ToSend(script[1..], inventories[1..], v, if sends then v else last, oneshot)
  }

  /** Over every run, exactly these are sent, in order. */
  lemma {:induction false} RunSendsExactly(l: Loop, session: Session, script: seq<Response>, inventories: seq<Mirror>,
                                           oneshot: bool)
    requires |inventories| == |script| && Follows(l, session) && AllHonest(session, script, inventories) && l.running
    ensures Run(l, script, oneshot).sent == l.sent + ToSend(script, inventories, l.version, l.lastVersion, oneshot)
    decreases script
  {
    if script == [] {
      assert l.sent + [] == l.sent;
    } else {
      var next := Step(l, script[0], oneshot);
      SendsExactly(l, session, script[0], inventories[0], oneshot);
      StepFollows(l, session, script[0], inventories[0], oneshot);
      if next.running {
        RunSendsExactly(next, Onward(session, script[0]), script[1..], inventories[1..], oneshot);
      }
      var sends := IsComplete(script[0]) && (next.version != l.lastVersion || script[0].due);
      var head, tail := if sends then [inventories[0]] else [],
                        if next.running then ToSend(script[1..], inventories[1..], next.version, next.lastVersion,
                                                    oneshot)
                        else [];
      SentInTurn(l.sent, inventories[0], sends, tail);
      RunAfter(next, script[1..], oneshot, tail);
      assert ToSend(script, inventories, l.version, l.lastVersion, oneshot) == head + tail;
    }
  }

  lemma SentInTurn(sent: seq<Mirror>, inventory: Mirror, sends: bool, tail: seq<Mirror>)
    ensures sent + ((if sends then [inventory] else []) + tail) == (if sends then sent + [inventory] else sent) + tail
  {
  }

  lemma RunAfter(next: Loop, script: seq<Response>, oneshot: bool, tail: seq<Mirror>)
    requires if next.running then Run(next, script, oneshot).sent == next.sent + tail else tail == []
    ensures Run(next, script, oneshot).sent == next.sent + tail
  {
    assert next.sent + [] == next.sent;
  }

  /** Every mapping sent is the server's inventory at one of its complete answers. */
  lemma {:induction false} OnlyInventoriesSent(l: Loop, session: Session, script: seq<Response>,
                                               inventories: seq<Mirror>, oneshot: bool)
    requires |inventories| == |script| && Follows(l, session) && AllHonest(session, script, inventories)
    ensures var sent := Run(l, script, oneshot).sent;
            && |l.sent| <= |sent| && sent[..|l.sent|] == l.sent
            && forall m :: m in sent[|l.sent|..] ==> CompleteAt(script, inventories, m)
    decreases script
  {
    if script != [] && l.running {
      var next := Step(l, script[0], oneshot);
      StepFollows(l, session, script[0], inventories[0], oneshot);
      OnlyInventoriesSent(next, Onward(session, script[0]), script[1..], inventories[1..], oneshot);
      var sent := Run(l, script, oneshot).sent;
      forall m | m in sent[|l.sent|..] ensures CompleteAt(script, inventories, m) {
        if m in sent[|next.sent|..] {
          CompleteLater(script, inventories, m);
        } else {
          assert IsComplete(script[0]) && m == inventories[0];
        }
      }
    }
  }

  predicate IsComplete(r: Response) {
    r.Reply? && (r.news.Some? ==> !r.news.value.truncated)
  }

  ghost predicate CompleteAt(script: seq<Response>, inventories: seq<Mirror>, m: Mirror)
    requires |inventories| == |script|
  {
    exists i :: 0 <= i < |script| && IsComplete(script[i]) && inventories[i] == m
  }

  lemma CompleteLater(script: seq<Response>, inventories: seq<Mirror>, m: Mirror)
    requires |inventories| == |script| && script != [] && CompleteAt(script[1..], inventories[1..], m)
    ensures CompleteAt(script, inventories, m)
  {
    var i :| 0 <= i < |script[1..]| && IsComplete(script[1..][i]) && inventories[1..][i] == m;
    assert script[i + 1] == script[1..][i] && inventories[i + 1] == inventories[1..][i];
  }

  /** The client, whose copy is changed in place. */
  class Esx {
    const oneshot: bool
    var hosts: Objects
    var vms: Objects
    var sent: seq<Mirror>

    constructor (oneshot: bool)
      ensures this.oneshot == oneshot && sent == []
    {
      this.oneshot := oneshot;
      hosts, vms, sent := map[], map[], [];
    }

    function Copy(): Mirror
      reads this
    {
      Mirror(hosts, vms)
    }

    method ApplyUpdates(updates: seq<ObjectUpdate>) returns (ok: bool)
      modifies this`hosts, this`vms
      ensures ok == UpdateAll(old(Copy()), updates).Some?
      ensures ok ==> Copy() == UpdateAll(old(Copy()), updates).value
    {
      var i := 0;
      assert updates[0..] == updates;
      while i < |updates|
        invariant 0 <= i <= |updates|
        invariant UpdateAll(Copy(), updates[i..]) == UpdateAll(old(Copy()), updates)
      {
        var u := updates[i];
        assert updates[i..][0] == u && updates[i..][1..] == updates[i + 1..];
        match u.target {
          case VirtualMachine => ok := ApplyVirtualMachineUpdate(u);
          case HostSystem => ok := ApplyHostSystemUpdate(u);
          case OtherType => ok := true;
        }
        if !ok {
          return;
        }
        i := i + 1;
      }
      ok := true;
    }

    method ApplyVirtualMachineUpdate(u: ObjectUpdate) returns (ok: bool)
      modifies this`vms
      ensures ok == UpdateVms(old(vms), u).Some?
      ensures ok ==> vms == UpdateVms(old(vms), u).value
    {
      if u.kind.Leave? {
        ok := u.id in vms;
        vms := vms - {u.id};
      } else if u.kind.Enter? || u.kind.Modify? {
        var vm := PropertiesOf(vms, u.id);
        var i := 0;
        ok := true;
        assert u.changes[0..] == u.changes;
        while i < |u.changes| && ok
          invariant 0 <= i <= |u.changes|
          invariant ChangeVmAll(PropertiesOf(vms, u.id), u.changes) == if ok then ChangeVmAll(vm, u.changes[i..])
                    else None
        {
          var c := u.changes[i];
          assert u.changes[i..][0] == c && u.changes[i..][1..] == u.changes[i + 1..];
          if c.Assign? {
            if c.val.Some? {
              vm := vm[c.name := c.val.value];
            }
          } else if c.Remove? || c.IndirectRemove? {
            vm := vm - {c.name};
          } else if c.name in vm && vm[c.name].Several? {
            vm := vm[c.name := Several(vm[c.name].items + [c.item])];
          } else {
            ok := false;
          }
          i := i + 1;
        }
        vms := vms[u.id := vm];
      } else {
        ok := true;
      }
    }

    method ApplyHostSystemUpdate(u: ObjectUpdate) returns (ok: bool)
      modifies this`hosts
      ensures ok == UpdateHosts(old(hosts), u).Some?
      ensures ok ==> hosts == UpdateHosts(old(hosts), u).value
    {
      if u.kind.Leave? {
        ok := u.id in hosts;
        hosts := hosts - {u.id};
      } else if u.kind.Enter? || u.kind.Modify? {
        var host := PropertiesOf(hosts, u.id);
        var i := 0;
        assert u.changes[0..] == u.changes;
        while i < |u.changes|
          invariant 0 <= i <= |u.changes|
          invariant ChangeHostAll(PropertiesOf(hosts, u.id), u.changes) == ChangeHostAll(host, u.changes[i..])
        {
          var c := u.changes[i];
          assert u.changes[i..][0] == c && u.changes[i..][1..] == u.changes[i + 1..];
          if c.Assign? && c.val.Some? {
            host := host[c.name := c.val.value];
          }
          i := i + 1;
        }
        hosts := hosts[u.id := host];
        ok := true;
      } else {
        ok := true;
      }
    }

    /** Runs until the answers end, or after the first complete one in one-shot mode. */
    method RunLoop(script: seq<Response>)
      modifies this
      ensures sent == Run(START.(sent := old(sent)), script, oneshot).sent
    {
      var version, lastVersion := "", BOGUS_VERSION;
      hosts, vms := map[], map[];
      var running := true;
      var i := 0;
      assert script[0..] == script;
      while i < |script| && running
        invariant 0 <= i <= |script|
        invariant Run(Loop(version, lastVersion, Copy(), sent, running), script[i..], oneshot)
                  == Run(START.(sent := old(sent)), script, oneshot)
      {
        assert script[i..][0] == script[i] && script[i..][1..] == script[i + 1..];
        version, lastVersion, running := Turn(version, lastVersion, script[i]);
        i := i + 1;
      }
    }

    method Turn(version: string, lastVersion: string, r: Response)
      returns (newVersion: string, newLast: string, running: bool)
      modifies this
      ensures Loop(newVersion, newLast, Copy(), sent, running)
              == Step(Loop(version, lastVersion, old(Copy()), old(sent), true), r, oneshot)
    {
      newVersion, newLast, running := version, lastVersion, true;
      if version == "" {
        hosts, vms := map[], map[];
      }
      match r {
        case Timeout => newVersion := "";
        case Failed => newVersion := "";
        case Canceled =>
        case Reply(news, due) =>
          if news.Some? {
            newVersion := news.value.version;
            var ok := ApplyUpdates(news.value.updates);
            if !ok {
              newVersion, newLast, running := "", BOGUS_VERSION, !oneshot;
              hosts, vms := map[], map[];
              return;
            }
            if news.value.truncated {
              return;
            }
          }
          if newLast != newVersion || due {
            sent := sent + [Copy()];
            newLast := newVersion;
          }
          running := !oneshot;
      }
    }
  }
}
