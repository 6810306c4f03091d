/**
 The thread that takes reports from the datastore and sends them to the subscription manager
 (DestinationThread in virt/virt.py), outside status mode. The manager's answers are inputs.
 */
module DestinationThread {
  import opened Listings
  import opened Options
  import opened HostMapping
  import opened ReportCycle

  const MINIMUM_JOB_POLL_INTERVAL := 15

  /** The answers to one poll: requests refused for coming too fast, then the answer that ends it. */
  datatype Reply = Answered(state: JobState) | Refused

  datatype Poll = Poll(throttles: seq<Option<int>>, last: Reply)

  /** The manager never answers that a job is merely created. */
  predicate Honest(poll: Poll) {
    poll.last.Answered? ==> !poll.last.state.Created?
  }

  /** How long to wait after being throttled. */
  function RetryAfter(after: Option<int>): int {
    if after.Some? then after.value else MINIMUM_JOB_POLL_INTERVAL * 2
  }

  /** Whether polling goes on after the first answer was a throttle. */
  predicate GivesUp(state: JobState, poll: Poll, oneshot: bool) {
    poll.throttles != [] && (oneshot || state.Processing?)
  }

  /** The state of a job after a check. */
  function StateAfter(state: JobState, poll: Poll, oneshot: bool): JobState {
    if Terminal(state) || GivesUp(state, poll, oneshot) || poll.last.Refused? then state else poll.last.state
  }

  /** A batch of mappings that was sent as one; its state is that of its job. */
  class Batch {
    const hosts: seq<Hypervisor>
    var state: JobState

    constructor (hosts: seq<Hypervisor>)
      ensures this.hosts == hosts && state == Created
    {
      this.hosts := hosts;
      state := Created;
    }
  }

  datatype Pending = Pending(batch: Batch, hash: Hash)

  datatype Item = Item(key: string, report: Report)

  /** What the thread remembers, with the states of the jobs of its batches. */
  datatype State = State(last: map<string, Hash>, submitted: map<string, Pending>, jobs: map<Batch, JobState>)

  ghost predicate AllKnown(submitted: map<string, Pending>, jobs: map<Batch, JobState>) {
    forall k :: k in submitted ==> submitted[k].batch in jobs
  }

  ghost predicate Consistent(s: State) {
    AllKnown(s.submitted, s.jobs)
  }

  function SourceOf(s: State, key: string): Source {
    Source(if key in s.last then Some(s.last[key]) else None, if key in s.submitted then Some(s.submitted[key].hash)
           else None)
  }

  function ReportOf(store: map<string, Report>, key: string): Option<Report> {
    if key in store then Some(store[key]) else None
  }

  // ----- gathering reports -----

  /** The state in which a source's job is seen when its report is looked at. */
  function SeenState(s: State, key: string, poll: Poll, oneshot: bool): JobState
    requires Consistent(s)
  {
    if key in s.submitted then StateAfter(s.jobs[s.submitted[key].batch], poll, oneshot) else Created
  }

  /** One source looked at: what is remembered after, and whether its report is to be sent. */
  function Visit(s: State, key: string, store: map<string, Report>, poll: Poll, oneshot: bool): (r: (State, bool))
    requires Consistent(s)
    ensures Consistent(r.0) && r.0.jobs.Keys == s.jobs.Keys
  {
    if key !in store then (s, false)
    else if key in s.submitted then
      var p := s.submitted[key];
      var seen := StateAfter(s.jobs[p.batch], poll, oneshot);
      var jobs := s.jobs[p.batch := seen];
      match seen
      case Finished => (State(s.last[key := p.hash], s.submitted - {key}, jobs), HashOf(store[key]) != p.hash)
      case Processing => (State(s.last, s.submitted, jobs), false)
      case _ => (State(s.last, s.submitted - {key}, jobs), true)
    else (s, key !in s.last || s.last[key] != HashOf(store[key]))
  }

  /** All sources looked at in turn: what is remembered after, and the reports to send. */
  function VisitAll(s: State, keys: seq<string>, store: map<string, Report>, polls: string -> Poll,
                    oneshot: bool): (r: (State, seq<Item>))
    requires Consistent(s)
    ensures Consistent(r.0) && r.0.jobs.Keys == s.jobs.Keys
    decreases keys
  {
    if keys == [] then (s, [])
    else
      var (next, offered) := Visit(s, keys[0], store, polls(keys[0]), oneshot);
      var (last, rest) := VisitAll(next, keys[1..], store, polls, oneshot);
      (last, (if offered then [Item(keys[0], store[keys[0]])] else []) + rest)
  }

  function Onward(items: seq<Item>, rest: (State, seq<Item>)): (State, seq<Item>) {
    (rest.0, items + rest.1)
  }

  lemma VisitNext(s: State, keys: seq<string>, i: nat, store: map<string, Report>, polls: string -> Poll,
                  oneshot: bool, items: seq<Item>)
    requires Consistent(s) && i < |keys|
    ensures Onward(items, VisitAll(s, keys[i..], store, polls, oneshot)) ==
              var (next, offered) := Visit(s, keys[i], store, polls(keys[i]), oneshot);
              Onward(if offered then items + [Item(keys[i], store[keys[i]])] else items,
                     VisitAll(next, keys[i + 1..], store, polls, oneshot))
  {
    assert keys[i..][0] == keys[i] && keys[i..][1..] == keys[i + 1..];
    var (next, offered) := Visit(s, keys[i], store, polls(keys[i]), oneshot);
    var rest := VisitAll(next, keys[i + 1..], store, polls, oneshot).1;
    assert items + ([] + rest) == items + rest;
    if offered {
      var item := Item(keys[i], store[keys[i]]);
      assert items + ([item] + rest) == items + [item] + rest;
    }
  }

  function KeysOf(items: seq<Item>): (r: seq<string>)
    ensures |r| == |items| && forall i :: 0 <= i < |r| ==> r[i] == items[i].key
  {
    seq(|items|, i requires 0 <= i < |items| => items[i].key)
  }

  /** The state a source's job is seen in, among the states that its turn comes in. */
  function SeenIn(s: State, keys: seq<string>, store: map<string, Report>, polls: string -> Poll, oneshot: bool,
                  key: string): JobState
    requires Consistent(s)
    decreases keys
  {
    if keys == [] then Created
    else if keys[0] == key then SeenState(s, key, polls(key), oneshot)
    else SeenIn(Visit(s, keys[0], store, polls(keys[0]), oneshot).0, keys[1..], store, polls, oneshot, key)
  }

  lemma VisitIsFetch(s: State, key: string, store: map<string, Report>, poll: Poll, oneshot: bool)
    requires Consistent(s)
    ensures var (next, offered) := Visit(s, key, store, poll, oneshot);
            (SourceOf(next, key), offered) == Fetch(SourceOf(s, key), ReportOf(store, key),
                                                    SeenState(s, key, poll, oneshot))
  {
  }

  lemma VisitLeavesOthers(s: State, key: string, store: map<string, Report>, poll: Poll, oneshot: bool, other: string)
    requires Consistent(s) && other != key
    ensures var next := Visit(s, key, store, poll, oneshot).0;
            && SourceOf(next, other) == SourceOf(s, other)
            && (other in next.submitted <==> other in s.submitted)
            && (other in s.submitted ==> next.submitted[other] == s.submitted[other])
  {
  }

  lemma {:induction false} VisitAllLeavesOthers(s: State, keys: seq<string>, store: map<string, Report>,
                                                polls: string -> Poll, oneshot: bool, other: string)
    requires Consistent(s) && other !in keys
    ensures var (last, items) := VisitAll(s, keys, store, polls, oneshot);
            && SourceOf(last, other) == SourceOf(s, other)
            && (other in last.submitted <==> other in s.submitted)
            && (other in s.submitted ==> last.submitted[other] == s.submitted[other])
            && forall item :: item in items ==> item.key in keys
    decreases keys
  {
    if keys != [] {
      VisitLeavesOthers(s, keys[0], store, polls(keys[0]), oneshot, other);
      VisitAllLeavesOthers(Visit(s, keys[0], store, polls(keys[0]), oneshot).0, keys[1..], store, polls, oneshot,
                           other);
    }
  }

  /** The report of a source is among the items, or none is. */
  ghost predicate Offers(items: seq<Item>, key: string, offered: bool, store: map<string, Report>) {
    if offered then key in store && Item(key, store[key]) in items else forall item :: item in items ==> item.key != key
  }

  /** Looking at all sources gives each a turn of its own, and offers its report just when that turn does. */
  lemma {:induction false} VisitAllIsFetch(s: State, keys: seq<string>, store: map<string, Report>,
                                           polls: string -> Poll, oneshot: bool, key: string)
    requires Consistent(s) && Distinct(keys) && key in keys
    ensures var (last, items) := VisitAll(s, keys, store, polls, oneshot);
            var (source, offered) := Fetch(SourceOf(s, key), ReportOf(store, key),
                                           SeenIn(s, keys, store, polls, oneshot, key));
            SourceOf(last, key) == source && Offers(items, key, offered, store)
    decreases keys
  {
    var (next, offered) := Visit(s, keys[0], store, polls(keys[0]), oneshot);
    var rest := keys[1..];
    if keys[0] == key {
      VisitIsFetch(s, key, store, polls(key), oneshot);
      assert key !in rest;
      VisitAllLeavesOthers(next, rest, store, polls, oneshot, key);
    } else {
      VisitLeavesOthers(s, keys[0], store, polls(keys[0]), oneshot, key);
      VisitAllIsFetch(next, rest, store, polls, oneshot, key);
    }
  }

  /** The items to send are for different sources, in the sources' order, each with the report in the datastore. */
  lemma {:induction false} OfferedInOrder(s: State, keys: seq<string>, store: map<string, Report>,
                                          polls: string -> Poll, oneshot: bool)
    requires Consistent(s) && Distinct(keys)
    ensures var items := VisitAll(s, keys, store, polls, oneshot).1;
            && Distinct(KeysOf(items))
            && forall item :: item in items ==> item.key in keys && item.key in store && item.report == store[item.key]
    decreases keys
  {
    if keys != [] {
      var (next, offered) := Visit(s, keys[0], store, polls(keys[0]), oneshot);
      OfferedInOrder(next, keys[1..], store, polls, oneshot);
      var rest := VisitAll(next, keys[1..], store, polls, oneshot).1;
      forall item | item in rest ensures item.key != keys[0] {
        var i :| 1 <= i < |keys| && keys[i] == item.key;
      }
      if offered {
        DistinctWithFirst(Item(keys[0], store[keys[0]]), rest);
      } else {
        assert [] + rest == rest;
      }
    }
  }

  lemma DistinctWithFirst(first: Item, rest: seq<Item>)
    requires Distinct(KeysOf(rest)) && forall item :: item in rest ==> item.key != first.key
    ensures Distinct(KeysOf([first] + rest))
  {
    var items := [first] + rest;
    forall i, j | 0 <= i < j < |items| ensures KeysOf(items)[i] != KeysOf(items)[j] {
      assert items[j] == rest[j - 1] && items[j] in rest;
      assert i > 0 ==> KeysOf(rest)[i - 1] != KeysOf(rest)[j - 1];
    }
  }

  /** No source whose report is to be sent has a job outstanding. */
  lemma {:induction false} OfferedHaveNoJob(s: State, keys: seq<string>, store: map<string, Report>,
                                            polls: string -> Poll, oneshot: bool)
    requires Consistent(s) && Distinct(keys)
    ensures var (last, items) := VisitAll(s, keys, store, polls, oneshot);
            forall item :: item in items ==> item.key !in last.submitted
  {
    var (last, items) := VisitAll(s, keys, store, polls, oneshot);
    OfferedInOrder(s, keys, store, polls, oneshot);
    forall item | item in items ensures item.key !in last.submitted {
      VisitAllIsFetch(s, keys, store, polls, oneshot, item.key);
      assert SourceOf(last, item.key).pending.None?;
    }
  }

  /** Jobs that have ended stay as they ended. */
  lemma {:induction false} EndedJobsStay(s: State, keys: seq<string>, store: map<string, Report>, polls: string -> Poll,
                                         oneshot: bool, b: Batch)
    requires Consistent(s) && b in s.jobs && Terminal(s.jobs[b])
    ensures VisitAll(s, keys, store, polls, oneshot).0.jobs[b] == s.jobs[b]
    decreases keys
  {
    if keys != [] {
      EndedJobsStay(Visit(s, keys[0], store, polls(keys[0]), oneshot).0, keys[1..], store, polls, oneshot, b);
    }
  }

  // ----- sending reports -----

  /** The answers to one delivery: throttles, then its end. A check-in may be taken without giving a result. */
  datatype Ending = Taken(state: JobState, hasResult: bool) | Rejected | Stopped

  datatype Delivery = Delivery(throttles: seq<Option<int>>, last: Ending)

  /** In one-shot mode a throttle ends the delivery. */
  predicate Delivered(d: Delivery, oneshot: bool) {
    !(oneshot && d.throttles != []) && d.last.Taken?
  }

  /** A check-in only counts when it gives a result. */
  predicate Succeeds(d: Delivery, oneshot: bool) {
    Delivered(d, oneshot) && d.last.hasResult
  }

  /** Deliveries that fail count as dealt with in one-shot mode, unless the thread was stopped meanwhile. */
  predicate Errs(d: Delivery, oneshot: bool) {
    oneshot && (d.throttles != [] || d.last.Rejected?)
  }

  function HostsOf(r: Report): seq<Hypervisor> {
    if r.Mapping? then Filtered(r.hosts, r.filters) else []
  }

  /** The batch: the filtered hosts of all mappings, one report after the other. */
  function AllHosts(items: seq<Item>): seq<Hypervisor> {
    if items == [] then [] else AllHosts(items[..|items| - 1]) + HostsOf(items[|items| - 1].report)
  }

  function GuestCount(hosts: seq<Hypervisor>): nat {
    if hosts == [] then 0 else |hosts[0].guests| + GuestCount(hosts[1..])
  }

  function Mappings(items: seq<Item>): (r: seq<Item>)
    ensures forall x :: x in r <==> x in items && x.report.Mapping?
  {
    if items == [] then []
    else Mappings(items[..|items| - 1]) + if items[|items| - 1].report.Mapping? then [items[|items| - 1]] else []
  }

  function GuestLists(items: seq<Item>): (r: seq<Item>)
    ensures forall x :: x in r <==> x in items && x.report.GuestList?
  {
    if items == [] then []
    else GuestLists(items[..|items| - 1]) + if items[|items| - 1].report.GuestList? then [items[|items| - 1]] else []
  }

  /** Sources whose mapping is empty are forgotten. */
  function Forget(last: map<string, Hash>, items: seq<Item>): map<string, Hash>
    decreases items
  {
    if items == [] then last
    else
      var rest := Forget(last, items[..|items| - 1]);
      if IsEmpty(items[|items| - 1].report) then rest - {items[|items| - 1].key} else rest
  }

  function Submit(submitted: map<string, Pending>, items: seq<Item>, batch: Batch): map<string, Pending>
    decreases items
  {
    if items == [] then submitted
    else Submit(submitted[items[0].key := Pending(batch, HashOf(items[0].report))], items[1..], batch)
  }

  function Remember(last: map<string, Hash>, items: seq<Item>, replies: string -> Delivery,
                    oneshot: bool): map<string, Hash>
    decreases items
  {
    if items == [] then last
    else Remember(if Delivered(replies(items[0].key), oneshot) then last[items[0].key := HashOf(items[0].report)]
                  else last,
                  items[1..], replies, oneshot)
  }

  /** Whether the report of an item is delivered. */
  predicate Sent(item: Item, items: seq<Item>, checkIn: Delivery, replies: string -> Delivery, printing: bool,
                 oneshot: bool)
  {
    match item.report
    case Mapping(_, _) => AllHosts(items) != [] && Succeeds(checkIn, oneshot)
    case GuestList(_, _) => !printing && Delivered(replies(item.key), oneshot)
    case Failure(_) => false
  }

  /** Whether a source counts as dealt with in one-shot mode. */
  predicate Dealt(item: Item, items: seq<Item>, checkIn: Delivery, replies: string -> Delivery, printing: bool,
                  oneshot: bool)
  {
    match item.report
    case Mapping(_, _) => AllHosts(items) != [] && Errs(checkIn, oneshot)
    case GuestList(_, _) => !printing && (Delivered(replies(item.key), oneshot) || Errs(replies(item.key), oneshot))
    case Failure(_) => oneshot
  }

  /** What is remembered after sending; the job of the batch is not counted here. */
  function AfterSend(s: State, items: seq<Item>, batch: Batch?, checkIn: Delivery, replies: string -> Delivery,
                     printing: bool, oneshot: bool): State {
    var forgotten := Forget(s.last, items);
    State(Remember(forgotten, ListsToSend(items, printing), replies, oneshot),
          if batch != null && Succeeds(checkIn, oneshot) then Submit(s.submitted, Mappings(items), batch)
            else s.submitted,
          s.jobs)
  }

  lemma {:induction false} ForgetAt(last: map<string, Hash>, items: seq<Item>, key: string)
    ensures var r := Forget(last, items);
            && (key in r <==> key in last && forall x :: x in items && x.key == key ==> !IsEmpty(x.report))
            && (key in r ==> r[key] == last[key])
    decreases items
  {
    if items != [] {
      var n := |items| - 1;
      ForgetAt(last, items[..n], key);
      assert forall x :: x in items <==> x == items[n] || x in items[..n];
    }
  }

  lemma {:induction false} SubmitAt(submitted: map<string, Pending>, items: seq<Item>, batch: Batch, item: Item)
    requires item in items && Distinct(KeysOf(items))
    ensures var r := Submit(submitted, items, batch);
            item.key in r && r[item.key] == Pending(batch, HashOf(item.report))
    decreases items
  {
    var next := submitted[items[0].key := Pending(batch, HashOf(items[0].report))];
    RestDistinct(items);
    if item == items[0] {
      SubmitLeavesOthers(next, items[1..], batch, item.key);
    } else {
      SubmitAt(next, items[1..], batch, item);
    }
  }

  lemma {:induction false} SubmitLeavesOthers(submitted: map<string, Pending>, items: seq<Item>, batch: Batch,
                                              key: string)
    requires forall x :: x in items ==> x.key != key
    ensures var r := Submit(submitted, items, batch);
            (key in r <==> key in submitted) && (key in r ==> r[key] == submitted[key])
    decreases items
  {
    if items != [] {
      SubmitLeavesOthers(submitted[items[0].key := Pending(batch, HashOf(items[0].report))], items[1..], batch, key);
    }
  }

  lemma {:induction false} RememberAt(last: map<string, Hash>, items: seq<Item>, replies: string -> Delivery,
                                      oneshot: bool, item: Item)
    requires item in items && Distinct(KeysOf(items))
    ensures var r := Remember(last, items, replies, oneshot);
            if Delivered(replies(item.key), oneshot) then item.key in r && r[item.key] == HashOf(item.report)
            else (item.key in r <==> item.key in last) && (item.key in r ==> r[item.key] == last[item.key])
    decreases items
  {
    var next := if Delivered(replies(items[0].key), oneshot) then last[items[0].key := HashOf(items[0].report)]
      else last;
    RestDistinct(items);
    if item == items[0] {
      RememberLeavesOthers(next, items[1..], replies, oneshot, item.key);
    } else {
      RememberAt(next, items[1..], replies, oneshot, item);
    }
  }

  lemma {:induction false} RememberLeavesOthers(last: map<string, Hash>, items: seq<Item>,
                                                replies: string -> Delivery, oneshot: bool, key: string)
    requires forall x :: x in items ==> x.key != key
    ensures var r := Remember(last, items, replies, oneshot);
            (key in r <==> key in last) && (key in r ==> r[key] == last[key])
    decreases items
  {
    if items != [] {
      RememberLeavesOthers(if Delivered(replies(items[0].key), oneshot)
                           then last[items[0].key := HashOf(items[0].report)] else last,
                           items[1..], replies, oneshot, key);
    }
  }

  lemma RestDistinct(items: seq<Item>)
    requires items != [] && Distinct(KeysOf(items))
    ensures Distinct(KeysOf(items[1..])) && forall x :: x in items[1..] ==> x.key != items[0].key
  {
    assert KeysOf(items[1..]) == KeysOf(items)[1..];
    forall x | x in items[1..] ensures x.key != items[0].key {
      var i :| 1 <= i < |items| && items[i] == x;
      assert KeysOf(items)[0] != KeysOf(items)[i];
    }
  }

  lemma {:induction false} PartsDistinct(items: seq<Item>)
    requires Distinct(KeysOf(items))
    ensures Distinct(KeysOf(Mappings(items))) && Distinct(KeysOf(GuestLists(items)))
  {
    if items != [] {
      var n := |items| - 1;
      BeforeDistinct(items);
      PartsDistinct(items[..n]);
      DistinctWithLast(Mappings(items[..n]), items[n]);
      DistinctWithLast(GuestLists(items[..n]), items[n]);
      assert Mappings(items[..n]) + [] == Mappings(items[..n]) && GuestLists(items[..n]) + [] == GuestLists(items[..n]);
    }
  }

  lemma BeforeDistinct(items: seq<Item>)
    requires items != [] && Distinct(KeysOf(items))
    ensures Distinct(KeysOf(items[..|items| - 1]))
            && forall x :: x in items[..|items| - 1] ==> x.key != items[|items| - 1].key
  {
    var n := |items| - 1;
    assert KeysOf(items[..n]) == KeysOf(items)[..n];
    forall x | x in items[..n] ensures x.key != items[n].key {
      var i :| 0 <= i < n && items[i] == x;
      assert KeysOf(items)[i] != KeysOf(items)[n];
    }
  }

  lemma DistinctWithLast(items: seq<Item>, last: Item)
    requires Distinct(KeysOf(items)) && forall item :: item in items ==> item.key != last.key
    ensures Distinct(KeysOf(items + [last]))
  {
    var all := items + [last];
    forall i, j | 0 <= i < j < |all| ensures KeysOf(all)[i] != KeysOf(all)[j] {
      assert all[i] == items[i] && items[i] in items;
      assert j < |items| ==> KeysOf(items)[i] != KeysOf(items)[j];
    }
  }

  lemma {:induction false} OnlyItemOfKey(items: seq<Item>, item: Item)
    requires Distinct(KeysOf(items)) && item in items
    ensures forall x :: x in items && x.key == item.key ==> x == item
  {
    if items[0] != item {
      RestDistinct(items);
      OnlyItemOfKey(items[1..], item);
    } else {
      RestDistinct(items);
    }
  }

  lemma {:induction false} LastAfterSend(last: map<string, Hash>, items: seq<Item>, replies: string -> Delivery,
                                         printing: bool, oneshot: bool, item: Item)
    requires Distinct(KeysOf(items)) && item in items
    ensures var r := Remember(Forget(last, items), ListsToSend(items, printing), replies, oneshot);
            if item.report.GuestList? && !printing && Delivered(replies(item.key), oneshot)
            then item.key in r && r[item.key] == HashOf(item.report)
            else
              && (item.key in r <==> item.key in last && !IsEmpty(item.report))
              && (item.key in r ==> r[item.key] == last[item.key])
  {
    var lists := ListsToSend(items, printing);
    PartsDistinct(items);
    OnlyItemOfKey(items, item);
    ForgetAt(last, items, item.key);
    if item in lists {
      RememberAt(Forget(last, items), lists, replies, oneshot, item);
    } else {
      RememberLeavesOthers(Forget(last, items), lists, replies, oneshot, item.key);
    }
  }

  lemma {:induction false} SubmittedAfterSend(submitted: map<string, Pending>, items: seq<Item>, batch: Batch,
                                              item: Item)
    requires Distinct(KeysOf(items)) && item in items
    ensures var r := Submit(submitted, Mappings(items), batch);
            if item.report.Mapping? then item.key in r && r[item.key] == Pending(batch, HashOf(item.report))
            else (item.key in r <==> item.key in submitted) && (item.key in r ==> r[item.key] == submitted[item.key])
  {
    PartsDistinct(items);
    OnlyItemOfKey(items, item);
    if item.report.Mapping? {
      SubmitAt(submitted, Mappings(items), batch, item);
    } else {
      SubmitLeavesOthers(submitted, Mappings(items), batch, item.key);
    }
  }

  /** Sending treats each source as its own turn. */
  lemma {:induction false} AfterSendIsDeliver(s: State, items: seq<Item>, batch: Batch?, checkIn: Delivery,
                                              replies: string -> Delivery, printing: bool, oneshot: bool, item: Item)
    requires Distinct(KeysOf(items)) && item in items && (batch == null <==> AllHosts(items) == [])
    ensures SourceOf(AfterSend(s, items, batch, checkIn, replies, printing, oneshot), item.key)
            == Deliver(SourceOf(s, item.key), item.report, Sent(item, items, checkIn, replies, printing, oneshot))
  {
    LastAfterSend(s.last, items, replies, printing, oneshot, item);
    if batch != null {
      SubmittedAfterSend(s.submitted, items, batch, item);
    }
  }

  lemma {:induction false} AfterSendLeavesOthers(s: State, items: seq<Item>, batch: Batch?, checkIn: Delivery,
                                                 replies: string -> Delivery, printing: bool, oneshot: bool,
                                                 key: string)
    requires forall item :: item in items ==> item.key != key
    ensures var r := AfterSend(s, items, batch, checkIn, replies, printing, oneshot);
            && SourceOf(r, key) == SourceOf(s, key)
            && (key in r.submitted <==> key in s.submitted)
            && (key in s.submitted ==> r.submitted[key] == s.submitted[key])
  {
    ForgetAt(s.last, items, key);
    if batch != null {
      SubmitLeavesOthers(s.submitted, Mappings(items), batch, key);
    }
    RememberLeavesOthers(Forget(s.last, items), GuestLists(items), replies, oneshot, key);
  }

  // ----- a whole cycle -----

  /** What is remembered after gathering and sending. */
  function Cycle(s: State, keys: seq<string>, store: map<string, Report>, polls: string -> Poll, batch: Batch?,
                 checkIn: Delivery, replies: string -> Delivery, printing: bool, oneshot: bool): State
    requires Consistent(s)
  {
    var (gathered, items) := VisitAll(s, keys, store, polls, oneshot);
    AfterSend(gathered, items, batch, checkIn, replies, printing, oneshot)
  }

  /** In every cycle each source takes one turn of the reporting cycle, and sources that are not looked at take none. */
  lemma {:induction false} CycleIsStep(s: State, keys: seq<string>, store: map<string, Report>, polls: string -> Poll,
                                       batch: Batch?, checkIn: Delivery, replies: string -> Delivery, printing: bool,
                                       oneshot: bool, key: string)
    requires Consistent(s) && Distinct(keys)
    requires batch == null <==> AllHosts(VisitAll(s, keys, store, polls, oneshot).1) == []
    ensures var items := VisitAll(s, keys, store, polls, oneshot).1;
            SourceOf(Cycle(s, keys, store, polls, batch, checkIn, replies, printing, oneshot), key) ==
              if key !in keys then SourceOf(s, key)
              else Step(SourceOf(s, key), Turn(ReportOf(store, key), SeenIn(s, keys, store, polls, oneshot, key),
                                               key in store
                                                 && Sent(Item(key, store[key]), items, checkIn, replies, printing,
                                                         oneshot)))
  {
    var (gathered, items) := VisitAll(s, keys, store, polls, oneshot);
    OfferedInOrder(s, keys, store, polls, oneshot);
    if key !in keys {
      VisitAllLeavesOthers(s, keys, store, polls, oneshot, key);
      AfterSendLeavesOthers(gathered, items, batch, checkIn, replies, printing, oneshot, key);
    } else {
      VisitAllIsFetch(s, keys, store, polls, oneshot, key);
      var offered := Fetch(SourceOf(s, key), ReportOf(store, key), SeenIn(s, keys, store, polls, oneshot, key)).1;
      if offered {
        AfterSendIsDeliver(gathered, items, batch, checkIn, replies, printing, oneshot, Item(key, store[key]));
      } else {
        AfterSendLeavesOthers(gathered, items, batch, checkIn, replies, printing, oneshot, key);
      }
    }
  }

  /** No job that is outstanding after the reports are gathered is forgotten or replaced by sending. */
  lemma {:induction false} SendingKeepsOutstanding(s: State, keys: seq<string>, store: map<string, Report>,
                                                   polls: string -> Poll, batch: Batch?, checkIn: Delivery,
                                                   replies: string -> Delivery, printing: bool, oneshot: bool,
                                                   key: string)
    requires Consistent(s) && Distinct(keys)
    ensures var gathered := VisitAll(s, keys, store, polls, oneshot).0;
            var after := Cycle(s, keys, store, polls, batch, checkIn, replies, printing, oneshot);
            key in gathered.submitted ==> key in after.submitted && after.submitted[key] == gathered.submitted[key]
  {
    var (gathered, items) := VisitAll(s, keys, store, polls, oneshot);
    OfferedHaveNoJob(s, keys, store, polls, oneshot);
    if key in gathered.submitted {
      AfterSendLeavesOthers(gathered, items, batch, checkIn, replies, printing, oneshot, key);
    }
  }

  // ----- whole runs -----

  /** One round: what the datastore and the manager have to say, and the batch that is made, if any. */
  datatype Round = Round(keys: seq<string>, store: map<string, Report>, polls: string -> Poll, batch: Batch?,
                         job: JobState, checkIn: Delivery, replies: string -> Delivery)

  lemma {:induction false} SubmitStaysConsistent(submitted: map<string, Pending>, items: seq<Item>, batch: Batch,
                                                 jobs: map<Batch, JobState>)
    requires batch in jobs && AllKnown(submitted, jobs)
    ensures AllKnown(Submit(submitted, items, batch), jobs)
    decreases items
  {
    if items != [] {
      SubmitStaysConsistent(submitted[items[0].key := Pending(batch, HashOf(items[0].report))], items[1..], batch,
                            jobs);
    }
  }

  /** What is remembered after sending, with the job of the batch. */
  function AfterReport(s: State, items: seq<Item>, batch: Batch?, job: JobState, checkIn: Delivery,
                       replies: string -> Delivery, printing: bool, oneshot: bool): (n: State)
    requires Consistent(s)
    ensures Consistent(n)
  {
    var after := AfterSend(s, items, batch, checkIn, replies, printing, oneshot);
    if batch == null then after
    else
      var jobs := s.jobs[batch := job];
      SubmitStaysConsistent(s.submitted, Mappings(items), batch, jobs);
      after.(jobs := jobs)
  }

  lemma AfterReportIs(s: State, n: State, items: seq<Item>, batch: Batch?, job: JobState, checkIn: Delivery,
                      replies: string -> Delivery, printing: bool, oneshot: bool)
    requires Consistent(s)
    requires n.last == Remember(Forget(s.last, items), ListsToSend(items, printing), replies, oneshot)
    requires n.submitted == if batch != null && Succeeds(checkIn, oneshot)
                            then Submit(s.submitted, Mappings(items), batch)
                            else s.submitted
    requires n.jobs == if batch == null then s.jobs else s.jobs[batch := job]
    ensures n == AfterReport(s, items, batch, job, checkIn, replies, printing, oneshot)
  {
  }

  function Next(s: State, r: Round, printing: bool, oneshot: bool): (n: State)
    requires Consistent(s)
    ensures Consistent(n)
  {
    var (gathered, items) := VisitAll(s, r.keys, r.store, r.polls, oneshot);
    AfterReport(gathered, items, r.batch, r.job, r.checkIn, r.replies, printing, oneshot)
  }

  /** The sources are listed once, and a batch is made just when there are hosts to send. */
  ghost predicate Proper(s: State, r: Round, oneshot: bool)
    requires Consistent(s)
  {
    Distinct(r.keys) && (r.batch == null <==> AllHosts(VisitAll(s, r.keys, r.store, r.polls, oneshot).1) == [])
  }

  ghost predicate AllProper(s: State, rounds: seq<Round>, printing: bool, oneshot: bool)
    requires Consistent(s)
    decreases rounds
  {
    rounds == [] || (Proper(s, rounds[0], oneshot)
                     && AllProper(Next(s, rounds[0], printing, oneshot), rounds[1..], printing, oneshot))
  }

  function After(s: State, rounds: seq<Round>, printing: bool, oneshot: bool): (n: State)
    requires Consistent(s)
    ensures Consistent(n)
    decreases rounds
  {
    if rounds == [] then s else After(Next(s, rounds[0], printing, oneshot), rounds[1..], printing, oneshot)
  }

  function TurnIn(s: State, r: Round, printing: bool, oneshot: bool, key: string): Turn
    requires Consistent(s)
  {
    var items := VisitAll(s, r.keys, r.store, r.polls, oneshot).1;
    Turn(ReportOf(r.store, key), SeenIn(s, r.keys, r.store, r.polls, oneshot, key),
         key in r.store && Sent(Item(key, r.store[key]), items, r.checkIn, r.replies, printing, oneshot))
  }

  /** The turns that a source takes in a run. */
  function TurnsIn(s: State, rounds: seq<Round>, printing: bool, oneshot: bool, key: string): seq<Turn>
    requires Consistent(s)
    decreases rounds
  {
    if rounds == [] then []
    else (if key in rounds[0].keys then [TurnIn(s, rounds[0], printing, oneshot, key)] else [])
         + TurnsIn(Next(s, rounds[0], printing, oneshot), rounds[1..], printing, oneshot, key)
  }

  lemma {:induction false} NextIsTurn(s: State, r: Round, printing: bool, oneshot: bool, key: string)
    requires Consistent(s) && Proper(s, r, oneshot)
    ensures SourceOf(Next(s, r, printing, oneshot), key)
            == if key in r.keys then Step(SourceOf(s, key), TurnIn(s, r, printing, oneshot, key)) else SourceOf(s, key)
  {
    CycleIsStep(s, r.keys, r.store, r.polls, r.batch, r.checkIn, r.replies, printing, oneshot, key);
  }

  /** In every run of the thread each source goes through the reporting cycle on its own. */
  lemma {:induction false} RoundsAreTurns(s: State, rounds: seq<Round>, printing: bool, oneshot: bool, key: string)
    requires Consistent(s) && AllProper(s, rounds, printing, oneshot)
    ensures SourceOf(After(s, rounds, printing, oneshot), key)
            == StepAll(SourceOf(s, key), TurnsIn(s, rounds, printing, oneshot, key))
    decreases rounds
  {
    if rounds != [] {
      var next := Next(s, rounds[0], printing, oneshot);
      NextIsTurn(s, rounds[0], printing, oneshot, key);
      RoundsAreTurns(next, rounds[1..], printing, oneshot, key);
      var turns := TurnsIn(next, rounds[1..], printing, oneshot, key);
      if key in rounds[0].keys {
        assert ([TurnIn(s, rounds[0], printing, oneshot, key)] + turns)[1..] == turns;
      } else {
        assert [] + turns == turns;
      }
    }
  }

  /** Nothing is remembered. */
  const FORGOTTEN := State(map[], map[], map[])

  /**
   In every run of the thread, two submissions in a row for one source carry the same digest only if the
   server was never seen to have finished with the first, or an empty mapping cleared the digest in between.
   */
  lemma ThreadSendsAgainOnlyIfLostOrCleared(rounds: seq<Round>, printing: bool, oneshot: bool, key: string, i: nat,
                                            j: nat)
    requires SentAgain(Run(FRESH, TurnsIn(FORGOTTEN, rounds, printing, oneshot, key)), i, j)
    ensures var events := Run(FRESH, TurnsIn(FORGOTTEN, rounds, printing, oneshot, key));
            Accepted(events[i].hash) !in events[i + 1..j] || Cleared in events[i + 1..j]
  {
    SentAgainOnlyIfLostOrCleared(TurnsIn(FORGOTTEN, rounds, printing, oneshot, key), i, j);
  }

  /**
   After every run of the thread, a source with a report and no job outstanding has it offered exactly when it differs
   from the one accepted last.
   */
  lemma {:induction false} ThreadOffersChanged(rounds: seq<Round>, r: Round, printing: bool, oneshot: bool, key: string)
    requires AllProper(FORGOTTEN, rounds, printing, oneshot)
    requires Distinct(r.keys) && key in r.keys && key in r.store
    requires key !in After(FORGOTTEN, rounds, printing, oneshot).submitted
    ensures var s, events := After(FORGOTTEN, rounds, printing, oneshot),
                             Run(FRESH, TurnsIn(FORGOTTEN, rounds, printing, oneshot, key));
            Item(key, r.store[key]) in VisitAll(s, r.keys, r.store, r.polls, oneshot).1
            <==> LastAccepted(events) != Some(HashOf(r.store[key]))
  {
    var s, turns := After(FORGOTTEN, rounds, printing, oneshot), TurnsIn(FORGOTTEN, rounds, printing, oneshot, key);
    RoundsAreTurns(FORGOTTEN, rounds, printing, oneshot, key);
    assert SourceOf(FORGOTTEN, key) == FRESH;
    RememberedIsLastAccepted(FRESH, turns, []);
    assert [] + Run(FRESH, turns) == Run(FRESH, turns);
    VisitAllIsFetch(s, r.keys, r.store, r.polls, oneshot, key);
  }

  /** A check leaves a job merely created exactly when it was, and got an error, or a throttle in one-shot mode. */
  lemma CreatedOnlyAfterError(state: JobState, poll: Poll, oneshot: bool)
    requires Honest(poll)
    ensures StateAfter(state, poll, oneshot).Created? <==>
              state.Created? && (poll.last.Refused? || (oneshot && poll.throttles != []))
  {
  }

  /** Jobs that have ended stay as they ended, whatever rounds follow that do not make their batch anew. */
  lemma {:induction false} EndedJobsStayEnded(s: State, rounds: seq<Round>, printing: bool, oneshot: bool, b: Batch)
    requires Consistent(s) && b in s.jobs && Terminal(s.jobs[b])
    requires forall i :: 0 <= i < |rounds| ==> rounds[i].batch != b
    ensures var n := After(s, rounds, printing, oneshot); b in n.jobs && n.jobs[b] == s.jobs[b]
    decreases rounds
  {
    if rounds != [] {
      var r := rounds[0];
      EndedJobsStay(s, r.keys, r.store, r.polls, oneshot, b);
      EndedJobsStayEnded(Next(s, r, printing, oneshot), rounds[1..], printing, oneshot, b);
    }
  }

  /** A round over sources that nothing is remembered of offers all their reports. */
  lemma FirstRound(s: State, items: seq<Item>, polls: string -> Poll, oneshot: bool)
    requires Consistent(s) && s.last == map[] && s.submitted == map[] && Distinct(KeysOf(items))
    ensures VisitAll(s, KeysOf(items), StoreOf(items), polls, oneshot) == (s, items)
  {
    VisitAllFresh(s, KeysOf(items), StoreOf(items), polls, oneshot);
    StoreHolds(items);
    InStoreIsAll(items, StoreOf(items));
  }

  /** The datastore that holds just the reports of some items. */
  function StoreOf(items: seq<Item>): map<string, Report> {
    if items == [] then map[]
    else
      var n := |items| - 1;
      StoreOf(items[..n])[items[n].key := items[n].report]
  }

  lemma {:induction false} StoreHolds(items: seq<Item>)
    requires Distinct(KeysOf(items))
    ensures forall i :: 0 <= i < |items| ==>
              items[i].key in StoreOf(items) && StoreOf(items)[items[i].key] == items[i].report
  {
    if items != [] {
      var n := |items| - 1;
      assert forall i :: 0 <= i < n ==> KeysOf(items)[i] != KeysOf(items)[n];
      assert KeysOf(items[..n]) == KeysOf(items)[..n];
      StoreHolds(items[..n]);
    }
  }

  lemma {:induction false} InStoreIsAll(items: seq<Item>, store: map<string, Report>)
    requires forall i :: 0 <= i < |items| ==> items[i].key in store && store[items[i].key] == items[i].report
    ensures InStore(KeysOf(items), store) == items
    decreases items
  {
    if items != [] {
      assert KeysOf(items)[1..] == KeysOf(items[1..]);
      InStoreIsAll(items[1..], store);
      assert Item(items[0].key, store[items[0].key]) == items[0] && items == [items[0]] + items[1..];
    }
  }

  // ----- what one round does, in terms of the answers -----

  /** A job that has not ended is seen as the manager answers, unless a throttle ends the check. */
  lemma JobIsSeenAsAnswered(state: JobState, poll: Poll, oneshot: bool)
    ensures !Terminal(state) && poll.last.Answered? && (poll.throttles == [] || (!oneshot && state.Created?)) ==>
              StateAfter(state, poll, oneshot) == poll.last.state
    ensures Terminal(state) || poll.last.Refused? || (poll.throttles != [] && (oneshot || !state.Created?)) ==>
              StateAfter(state, poll, oneshot) == state
  {
  }

  /** The batch holds the passing hosts of the mappings, one report after the other. */
  lemma {:induction false} HostsInTurn(first: seq<Item>, second: seq<Item>)
    ensures AllHosts(first + second) == AllHosts(first) + AllHosts(second)
    decreases second
  {
    if second == [] {
      assert first + second == first && AllHosts(first) + [] == AllHosts(first);
    } else {
      var n, all := |second| - 1, first + second;
      assert all[..|all| - 1] == first + second[..n];
      HostsInTurn(first, second[..n]);
      HostsJoined(AllHosts(first), AllHosts(second[..n]), HostsOf(second[n].report));
    }
  }

  lemma HostsJoined(a: seq<Hypervisor>, b: seq<Hypervisor>, c: seq<Hypervisor>)
    ensures a + b + c == a + (b + c)
  {
  }

  /** One mapping adds the hosts that pass its filters, and other reports add none. */
  lemma HostsOfOne(item: Item)
    ensures AllHosts([item]) == if item.report.Mapping? then Filtered(item.report.hosts, item.report.filters) else []
  {
    assert [item][..0] == [] && [] + HostsOf(item.report) == HostsOf(item.report);
  }

  /** The guests of a batch are counted host by host. */
  lemma {:induction false} GuestsInTurn(first: seq<Hypervisor>, second: seq<Hypervisor>)
    ensures GuestCount(first + second) == GuestCount(first) + GuestCount(second)
    ensures |first| == 1 ==> GuestCount(first) == |first[0].guests|
    decreases first
  {
    if first == [] {
      assert first + second == second;
    } else {
      assert (first + second)[1..] == first[1..] + second;
      GuestsInTurn(first[1..], second);
    }
  }

  lemma {:induction false} SomeHosts(items: seq<Item>)
    ensures AllHosts(items) != [] <==>
              exists x :: x in items && x.report.Mapping? && Filtered(x.report.hosts, x.report.filters) != []
  {
    if items != [] {
      var n := |items| - 1;
      SomeHosts(items[..n]);
      assert forall x :: x in items <==> x in items[..n] || x == items[n];
    }
  }

  /** Some mapping among the items has a host that passes its filters. */
  ghost predicate HasHosts(items: seq<Item>) {
    exists x :: x in items && x.report.Mapping? && Filtered(x.report.hosts, x.report.filters) != []
  }

  /**
   A mapping that is offered is outstanding after the round, with its own digest, exactly when there are hosts to send
   and the check-in is taken with a result, in one-shot mode without a throttle.
   */
  lemma {:induction false} MappingIsSubmitted(s: State, r: Round, printing: bool, oneshot: bool, item: Item)
    requires Consistent(s) && Proper(s, r, oneshot)
    requires item in VisitAll(s, r.keys, r.store, r.polls, oneshot).1 && item.report.Mapping?
    ensures var items, n := VisitAll(s, r.keys, r.store, r.polls, oneshot).1, Next(s, r, printing, oneshot);
            if HasHosts(items) && r.checkIn.last.Taken? && r.checkIn.last.hasResult
              && (oneshot ==> r.checkIn.throttles == [])
            then r.batch != null && item.key in n.submitted
                 && n.submitted[item.key] == Pending(r.batch, HashOf(item.report))
            else item.key !in n.submitted
  {
    var (gathered, items) := VisitAll(s, r.keys, r.store, r.polls, oneshot);
    OfferedInOrder(s, r.keys, r.store, r.polls, oneshot);
    OfferedHaveNoJob(s, r.keys, r.store, r.polls, oneshot);
    SomeHosts(items);
    SubmittedNext(s, r, printing, oneshot);
    if r.batch != null {
      SubmittedAfterSend(gathered.submitted, items, r.batch, item);
    }
  }

  lemma SubmittedNext(s: State, r: Round, printing: bool, oneshot: bool)
    requires Consistent(s)
    ensures var (gathered, items) := VisitAll(s, r.keys, r.store, r.polls, oneshot);
            Next(s, r, printing, oneshot).submitted ==
              if r.batch != null && Succeeds(r.checkIn, oneshot)
                then Submit(gathered.submitted, Mappings(items), r.batch)
              else gathered.submitted
  {
  }

  /**
   A guest list that is offered is remembered after the round exactly when it is not printed and is taken, in one-shot
   mode without a throttle; otherwise nothing is remembered anew.
   */
  lemma {:induction false} GuestListIsRemembered(s: State, r: Round, printing: bool, oneshot: bool, item: Item)
    requires Consistent(s) && Proper(s, r, oneshot)
    requires item in VisitAll(s, r.keys, r.store, r.polls, oneshot).1 && item.report.GuestList?
    ensures var gathered, n, reply := VisitAll(s, r.keys, r.store, r.polls, oneshot).0, Next(s, r, printing, oneshot),
                                      r.replies(item.key);
            if !printing && reply.last.Taken? && (oneshot ==> reply.throttles == [])
            then item.key in n.last && n.last[item.key] == HashOf(item.report)
            else (item.key in n.last <==> item.key in gathered.last)
                 && (item.key in n.last ==> n.last[item.key] == gathered.last[item.key])
  {
    var (gathered, items) := VisitAll(s, r.keys, r.store, r.polls, oneshot);
    OfferedInOrder(s, r.keys, r.store, r.polls, oneshot);
    LastAfterSend(gathered.last, items, r.replies, printing, oneshot, item);
  }

  /** A delivery is tried after each throttle until it is answered; in one-shot mode only once. */
  lemma {:induction false} RequestsOfDelivery(hosts: seq<Hypervisor>, d: Delivery, oneshot: bool)
    ensures var requests := Times(hosts, Attempts(d, oneshot));
            && (forall i :: 0 <= i < |requests| ==> requests[i] == hosts)
            && (oneshot && d.throttles != [] ==> |requests| == 1)
            && (!(oneshot && d.throttles != []) && d.last.Stopped? ==> |requests| == |d.throttles|)
            && (!(oneshot && d.throttles != []) && !d.last.Stopped? ==> |requests| == |d.throttles| + 1)
  {
    TimesAre(hosts, Attempts(d, oneshot));
  }

  lemma {:induction false} TimesAre<T>(x: T, n: nat)
    ensures |Times(x, n)| == n && forall i :: 0 <= i < n ==> Times(x, n)[i] == x
  {
    if n > 0 {
      TimesAre(x, n - 1);
    }
  }

  /** In one-shot mode just the sources whose guest lists were taken are dropped, and the others keep their order. */
  lemma {:induction false} DroppedIff(keys: seq<string>, items: seq<Item>, replies: string -> Delivery, printing: bool,
                                      oneshot: bool, k: string)
    ensures k in KeysLeft(keys, items, replies, printing, oneshot) <==>
              k in keys
              && !(oneshot && !printing && exists x :: x in items && x.key == k && x.report.GuestList?
                                                       && replies(k).throttles == [] && replies(k).last.Taken?)
  {
    var sent := ListsSent(ListsToSend(items, printing), replies, oneshot);
    if oneshot {
      assert k in sent <==>
               exists x :: x in ListsToSend(items, printing) && x.key == k && Delivered(replies(k), oneshot);
    }
  }

  lemma {:induction false} ExceptInTurn(first: seq<string>, second: seq<string>, gone: set<string>)
    ensures Except(first + second, gone) == Except(first, gone) + Except(second, gone)
    decreases first
  {
    if first == [] {
      assert first + second == second && [] + Except(second, gone) == Except(second, gone);
    } else {
      assert (first + second)[1..] == first[1..] + second;
      ExceptInTurn(first[1..], second, gone);
      var head := if first[0] in gone then [] else [first[0]];
      assert head + Except(first[1..], gone) + Except(second, gone)
             == head + (Except(first[1..], gone) + Except(second, gone));
    }
  }

  /** How a source is dealt with by one report in one-shot mode. */
  ghost predicate IsDealtWith(item: Item, items: seq<Item>, checkIn: Delivery, replies: string -> Delivery,
                              printing: bool)
  {
    match item.report
    case Mapping(_, _) => HasHosts(items) && (checkIn.throttles != [] || checkIn.last.Rejected?)
    case GuestList(_, _) => !printing && (replies(item.key).throttles != [] || !replies(item.key).last.Stopped?)
    case Failure(_) => true
  }

  /** The thread stops exactly in one-shot mode once each source has been dealt with by a report of the round. */
  lemma {:induction false} StopsIff(keys: seq<string>, items: seq<Item>, checkIn: Delivery, replies: string -> Delivery,
                                    printing: bool, oneshot: bool)
    ensures Stops(keys, items, checkIn, replies, printing, oneshot) <==>
              oneshot && items != []
              && forall k :: k in keys ==>
                   exists x :: x in items && x.key == k && IsDealtWith(x, items, checkIn, replies, printing)
  {
    SomeHosts(items);
    if oneshot {
      forall x | x in items
        ensures Dealt(x, items, checkIn, replies, printing, oneshot)
                <==> IsDealtWith(x, items, checkIn, replies, printing)
      {
      }
      forall k: string
        ensures k in DealtKeys(items, checkIn, replies, printing, oneshot) <==>
                exists x :: x in items && x.key == k && IsDealtWith(x, items, checkIn, replies, printing)
      {
      }
    }
  }

  /** A mapping whose check-in is taken is not counted, so with one the thread goes on in one-shot mode. */
  lemma {:induction false} TakenMappingNeverStops(keys: seq<string>, items: seq<Item>, checkIn: Delivery,
                                                  replies: string -> Delivery, printing: bool, oneshot: bool,
                                                  item: Item)
    requires Distinct(KeysOf(items)) && item in items && item.key in keys && item.report.Mapping?
    requires checkIn.throttles == [] && checkIn.last.Taken?
    ensures !Stops(keys, items, checkIn, replies, printing, oneshot)
  {
    StopsIff(keys, items, checkIn, replies, printing, oneshot);
    OnlyItemOfKey(items, item);
  }

  // ----- the thread -----

  class Thread {
    const oneshot: bool
    const printing: bool
    const interval: nat
    var initial: bool
    var sourceKeys: seq<string>
    var last: map<string, Hash>
    var submitted: map<string, Pending>
    var intervalModifier: int
    var waits: seq<int>
    var requests: seq<seq<Hypervisor>>
    var stopped: bool
    ghost var batches: set<Batch>

    constructor (sourceKeys: seq<string>, interval: nat, oneshot: bool, printing: bool)
      requires Distinct(sourceKeys) && interval > 0
      ensures this.oneshot == oneshot && this.printing == printing && this.sourceKeys == sourceKeys && initial
              && !stopped
      ensures Valid() && Remembered() == FORGOTTEN
    {
      this.oneshot, this.printing, this.interval, this.sourceKeys := oneshot, printing, interval, sourceKeys;
      initial, stopped := true, false;
      last, submitted, intervalModifier, waits, requests, batches := map[], map[], 0, [], [], {};
    }

    /** Until the first reports are gathered nothing is remembered. */
    ghost predicate Valid()
      reads this
    {
      && Distinct(sourceKeys) && interval > 0
      && (forall k :: k in submitted ==> submitted[k].batch in batches)
      && (initial ==> last == map[] && submitted == map[])
    }

    ghost function Remembered(): (s: State)
      requires Valid()
      reads this, batches
      ensures Consistent(s)
    {
      State(last, submitted, map b | b in batches :: b.state)
    }

    method Wait(time: int)
      modifies this`waits
      ensures waits == old(waits) + [time]
    {
      waits := waits + [time];
    }

    method WaitBeforePoll(firstAttempt: bool, ghost left: seq<int>) returns (ghost rest: seq<int>)
      requires left != [] && left[0] == TimeToWait(intervalModifier, firstAttempt)
      modifies this`waits, this`intervalModifier
      ensures rest == left[1..] && waits + rest == old(waits) + left && intervalModifier == 0
    {
      var time := TimeToWait(intervalModifier, firstAttempt);
      intervalModifier := 0;
      Wait(time);
      rest := left[1..];
      assert left == [time] + rest;
    }

    /** Polls the job of a batch. A job that has ended is not polled, and one being processed is polled once. */
    method CheckReportStatus(batch: Batch, poll: Poll)
      requires Honest(poll)
      modifies this`intervalModifier, this`waits, batch
      ensures batch.state == StateAfter(old(batch.state), poll, oneshot)
      ensures batch.state.Created? <==>
                old(batch.state).Created? && (poll.last.Refused? || (oneshot && poll.throttles != []))
      ensures Terminal(old(batch.state)) ==> waits == old(waits) && intervalModifier == old(intervalModifier)
      ensures !Terminal(old(batch.state)) ==>
                waits == old(waits) + PollWaits(old(intervalModifier), poll.throttles,
                                                GivesUp(old(batch.state), poll, oneshot))
    {
      var firstAttempt := true;
      var i := 0;
      ghost var answered := false;
      ghost var left := PollWaits(intervalModifier, poll.throttles, GivesUp(batch.state, poll, oneshot));
      ghost var goal := waits + left;
      while batch.state.Created? || (batch.state.Processing? && firstAttempt)
        invariant 0 <= i <= |poll.throttles| && (firstAttempt <==> i == 0 && !answered)
        invariant if answered then poll.last == Answered(batch.state) && !GivesUp(old(batch.state), poll, oneshot)
                  else batch.state == old(batch.state)
        invariant firstAttempt ==> intervalModifier == old(intervalModifier) && waits == old(waits)
        invariant !firstAttempt ==> !Terminal(old(batch.state))
        invariant i > 0 && !answered ==> !oneshot && intervalModifier == RetryAfter(poll.throttles[i - 1])
        invariant waits + left == goal
        invariant left == if firstAttempt then PollWaits(intervalModifier, poll.throttles,
                                                         GivesUp(batch.state, poll, oneshot))
                          else if batch.state.Created? then RetryWaits(poll.throttles[i - 1..]) else []
        decreases |poll.throttles| - i, !answered
      {
        WaitsFrom(poll.throttles, i);
        left := WaitBeforePoll(firstAttempt, left);
        if i < |poll.throttles| {
          if oneshot {
            break;
          }
          intervalModifier := RetryAfter(poll.throttles[i]);
          i := i + 1;
        } else if poll.last.Refused? {
          break;
        } else {
          batch.state := poll.last.state;
          answered := true;
        }
        firstAttempt := false;
      }
      assert waits + [] == waits;
      CreatedOnlyAfterError(old(batch.state), poll, oneshot);
    }

    /** Looks at one source: checks its outstanding job, and tells whether its report is to be sent. */
    method VisitSource(key: string, store: map<string, Report>, poll: Poll, ignoreDuplicates: bool)
      returns (offered: bool)
      requires Valid() && Honest(poll) && (!ignoreDuplicates ==> last == map[] && submitted == map[])
      modifies this`last, this`submitted, this`intervalModifier, this`waits, batches
      ensures Valid() && (!ignoreDuplicates ==> last == map[] && submitted == map[])
      ensures (Remembered(), offered) == Visit(old(Remembered()), key, store, poll, oneshot)
    {
      if key !in store {
        return false;
      }
      if key in submitted {
        offered := VisitPending(key, store[key], poll, ignoreDuplicates);
      } else {
        offered := !(ignoreDuplicates && key in last && last[key] == HashOf(store[key]));
      }
    }

    /** A source with an outstanding job: what becomes of the job decides. */
    method VisitPending(key: string, report: Report, poll: Poll, ignoreDuplicates: bool) returns (offered: bool)
      requires Valid() && Honest(poll) && key in submitted && ignoreDuplicates
      modifies this`last, this`submitted, this`intervalModifier, this`waits, batches
      ensures Valid()
      ensures var p, seen := old(submitted[key]), SeenState(old(Remembered()), key, poll, oneshot);
              && Remembered().jobs == old(Remembered()).jobs[p.batch := seen]
              && last == (if seen.Finished? then old(last)[key := p.hash] else old(last))
              && submitted == (if seen.Processing? then old(submitted) else old(submitted) - {key})
              && offered == if seen.Finished? then HashOf(report) != p.hash else !seen.Processing?
    {
      var p := submitted[key];
      CheckReportStatus(p.batch, poll);
      submitted := submitted - {key};
      if p.batch.state.Finished? {
        last := last[key := p.hash];
        if ignoreDuplicates && HashOf(report) == p.hash {
          return false;
        }
      } else if p.batch.state.Processing? {
        submitted := submitted[key := p];
        assert submitted == old(submitted);
        return false;
      }
      offered := true;
    }

    /** The reports to send, one source after the other. */
    method GetDataCommon(keys: seq<string>, store: map<string, Report>, polls: string -> Poll, ignoreDuplicates: bool)
      returns (reports: seq<Item>)
      requires Valid() && (forall k: string :: Honest(polls(k)))
               && (!ignoreDuplicates ==> last == map[] && submitted == map[])
      modifies this`last, this`submitted, this`intervalModifier, this`waits, batches
      ensures Valid() && (!ignoreDuplicates ==> last == map[] && submitted == map[])
      ensures (Remembered(), reports) == VisitAll(old(Remembered()), keys, store, polls, oneshot)
    {
      reports := [];
      ghost var goal := VisitAll(Remembered(), keys, store, polls, oneshot);
      var i := 0;
      assert keys[0..] == keys && [] + goal.1 == goal.1;
      while i < |keys|
        invariant 0 <= i <= |keys| && Valid() && (!ignoreDuplicates ==> last == map[] && submitted == map[])
        invariant goal == Onward(reports, VisitAll(Remembered(), keys[i..], store, polls, oneshot))
      {
        VisitNext(Remembered(), keys, i, store, polls, oneshot, reports);
        var offered := VisitSource(keys[i], store, polls(keys[i]), ignoreDuplicates);
        if offered {
          reports := reports + [Item(keys[i], store[keys[i]])];
        }
        i := i + 1;
      }
      assert reports + [] == reports;
    }

    /** Waits for every source to report once, but no longer than the interval once there is a report. */
    method GetDataInitial(stores: seq<map<string, Report>>, polls: string -> Poll) returns (reports: seq<Item>)
      requires Valid() && initial && sourceKeys != [] && forall k: string :: Honest(polls(k))
      modifies this`last, this`submitted, this`intervalModifier, this`waits, this`initial, batches
      ensures Valid() && !initial && Remembered() == old(Remembered())
      ensures Distinct(KeysOf(reports)) && forall item :: item in reports ==>
                item.key in sourceKeys && IsFirst(stores, item)
      ensures reports == [] ==> forall k, j :: k in sourceKeys && 0 <= j < |stores| ==> k !in stores[j]
    {
      reports := [];
      var i := 0;
      while reports == [] && i < |stores|
        invariant 0 <= i <= |stores| && Valid() && Remembered() == old(Remembered()) && initial
        invariant Gathered(reports, sourceKeys, stores, i)
        decreases |stores| - i
      {
        var remaining := sourceKeys;
        var waited := 0;
        ghost var start := i;
        while |remaining| > 0 && waited < interval && i < |stores|
          invariant start <= i <= |stores| && Valid() && Remembered() == old(Remembered()) && initial
          invariant Gathered(reports, sourceKeys, stores, i) && AreRemaining(remaining, sourceKeys, reports)
          invariant i == start ==> waited == 0 && remaining == sourceKeys
          decreases |stores| - i
        {
          VisitAllFresh(Remembered(), remaining, stores[i], polls, oneshot);
          var found := GetDataCommon(remaining, stores[i], polls, false);
          GatherMore(reports, sourceKeys, stores, i, remaining);
          reports := reports + found;
          remaining := Except(remaining, KeySet(found));
          if |remaining| > 0 {
            waited := waited + 1;
          }
          i := i + 1;
        }
      }
      initial := false;
    }

    // ----- sending -----

    /** Sorts the reports by kind, joins the mappings, and forgets the sources whose mapping is empty. */
    method Collect(items: seq<Item>)
      returns (hosts: seq<Hypervisor>, guests: nat, mappings: seq<Item>, guestLists: seq<Item>)
      modifies this`last
      ensures hosts == AllHosts(items) && guests == GuestCount(AllHosts(items))
      ensures mappings == Mappings(items) && guestLists == GuestLists(items)
      ensures last == Forget(old(last), items)
    {
      hosts, guests, mappings, guestLists := [], 0, [], [];
      var i := 0;
      while i < |items|
        invariant 0 <= i <= |items| && guests == GuestCount(hosts)
        invariant PartsOf(items[..i], old(last)) == Parts(hosts, mappings, guestLists, last)
      {
        var item := items[i];
        assert items[..i + 1][..i] == items[..i];
        hosts, guests, mappings, guestLists := CollectOne(item, hosts, guests, mappings, guestLists);
        i := i + 1;
      }
      assert items[..i] == items;
      PartsAre(items, old(last));
    }

    method CollectOne(item: Item, hosts: seq<Hypervisor>, guests: nat, mappings: seq<Item>, guestLists: seq<Item>)
      returns (all: seq<Hypervisor>, total: nat, batched: seq<Item>, lists: seq<Item>)
      requires guests == GuestCount(hosts)
      modifies this`last
      ensures Parts(all, batched, lists, last) == AddPart(Parts(hosts, mappings, guestLists, old(last)), item)
      ensures total == GuestCount(all)
    {
      all, total, batched, lists := hosts, guests, mappings, guestLists;
      if item.report.GuestList? {
        lists := guestLists + [item];
      } else if item.report.Mapping? {
        batched := mappings + [item];
        all, total := AddMapping(item, hosts, guests);
      }
    }

    method AddMapping(item: Item, hosts: seq<Hypervisor>, guests: nat) returns (all: seq<Hypervisor>, total: nat)
      requires item.report.Mapping? && guests == GuestCount(hosts)
      modifies this`last
      ensures all == hosts + HostsOf(item.report) && total == GuestCount(all)
      ensures last == if IsEmpty(item.report) then old(last) - {item.key} else old(last)
    {
      var kept := Association(item.report.hosts, item.report.filters);
      GuestCountOfJoined(hosts, kept);
      all, total := hosts + kept, guests + GuestCount(kept);
      if |kept| == 0 && item.key in last {
        last := last - {item.key};
      }
    }

    /** Tries to check in a batch until it is taken, rejected or given up; every attempt sends the same hosts. */
    method SendBatch(hosts: seq<Hypervisor>, checkIn: Delivery) returns (batch: Batch, sent: bool)
      requires Valid()
      modifies this`requests, this`intervalModifier, this`waits, this`batches
      ensures Valid() && fresh(batch) && batch.hosts == hosts && batches == old(batches) + {batch}
      ensures sent == Succeeds(checkIn, oneshot)
      ensures sent ==> batch.state == checkIn.last.state
      ensures requests == old(requests) + Times(hosts, Attempts(checkIn, oneshot))
    {
      batch := new Batch(hosts);
      batches := batches + {batch};
      sent := false;
      var i, done := 0, false;
      ghost var attempts := 0;
      while !done && !(i == |checkIn.throttles| && checkIn.last.Stopped?)
        invariant 0 <= i <= |checkIn.throttles| && batches == old(batches) + {batch}
        invariant requests == old(requests) + Times(hosts, attempts)
        invariant if done then sent == Succeeds(checkIn, oneshot) && attempts == Attempts(checkIn, oneshot)
                               && (sent ==> batch.state == checkIn.last.state)
                  else !sent && attempts == i && (i > 0 ==> !oneshot)
        decreases !done, |checkIn.throttles| - i
      {
        requests, attempts := requests + [hosts], attempts + 1;
        if i < |checkIn.throttles| {
          if oneshot {
            done := true;
          } else {
            intervalModifier := RetryAfter(checkIn.throttles[i]);
            Wait(intervalModifier);
            intervalModifier := 0;
            i := i + 1;
          }
        } else {
          if checkIn.last.Taken? {
            batch.state := checkIn.last.state;
            sent := checkIn.last.hasResult;
          }
          done := true;
        }
      }
    }

    method RecordSubmitted(mappings: seq<Item>, batch: Batch)
      requires Valid() && batch in batches && !initial
      modifies this`submitted
      ensures Valid() && submitted == Submit(old(submitted), mappings, batch)
    {
      var i := 0;
      assert mappings[0..] == mappings;
      while i < |mappings|
        invariant 0 <= i <= |mappings| && Valid()
        invariant Submit(submitted, mappings[i..], batch) == Submit(old(submitted), mappings, batch)
      {
        assert mappings[i..][0] == mappings[i] && mappings[i..][1..] == mappings[i + 1..];
        submitted := submitted[mappings[i].key := Pending(batch, HashOf(mappings[i].report))];
        i := i + 1;
      }
    }

    /** Sends guest lists one at a time, retrying those that are throttled. */
    method SendGuestLists(items: seq<Item>, replies: string -> Delivery) returns (dealt: set<string>, sent: set<string>)
      requires Valid() && !initial
      modifies this`last, this`waits
      ensures Valid() && last == Remember(old(last), items, replies, oneshot)
      ensures sent == ListsSent(items, replies, oneshot)
      ensures dealt == ListsDealt(items, replies, oneshot)
    {
      dealt, sent := {}, {};
      var i := 0;
      assert items[0..] == items;
      while i < |items|
        invariant 0 <= i <= |items| && Valid()
        invariant Remember(last, items[i..], replies, oneshot) == Remember(old(last), items, replies, oneshot)
        invariant sent == ListsSent(items[..i], replies, oneshot)
        invariant dealt == ListsDealt(items[..i], replies, oneshot)
      {
        var item := items[i];
        OneMoreList(items, i, replies, oneshot);
        RememberNext(last, items, i, replies, oneshot);
        var ok, erred := SendGuests(replies(item.key));
        if ok {
          last := last[item.key := HashOf(item.report)];
          dealt, sent := dealt + {item.key}, sent + {item.key};
        } else if erred {
          dealt := dealt + {item.key};
        }
        i := i + 1;
      }
      assert items[..i] == items;
    }

    method SendGuests(reply: Delivery) returns (ok: bool, erred: bool)
      modifies this`waits
      ensures ok == Delivered(reply, oneshot) && (!ok ==> erred == Errs(reply, oneshot))
    {
      ok, erred := false, false;
      var i, retry := 0, true;
      while retry && !(i == |reply.throttles| && reply.last.Stopped?)
        invariant 0 <= i <= |reply.throttles|
        invariant if retry then !ok && !erred && (i > 0 ==> !oneshot)
                  else ok == Delivered(reply, oneshot) && (!ok ==> erred == Errs(reply, oneshot))
        decreases retry, |reply.throttles| - i
      {
        if i < |reply.throttles| {
          if oneshot {
            erred, retry := true, false;
          } else {
            Wait(RetryAfter(reply.throttles[i]));
            i := i + 1;
          }
        } else {
          ok, erred, retry := reply.last.Taken?, reply.last.Rejected? && oneshot, false;
        }
      }
    }

    /** Checks in the joined mappings, if they hold any hosts, and records what was submitted. */
    method SendMappings(hosts: seq<Hypervisor>, mappings: seq<Item>, checkIn: Delivery)
      returns (batch: Batch?, dealt: set<string>)
      requires Valid() && !initial
      modifies this`submitted, this`requests, this`intervalModifier, this`waits, this`batches
      ensures Valid() && (batch == null <==> hosts == [])
      ensures batch != null ==> fresh(batch) && batch.hosts == hosts
      ensures batches == old(batches) + if batch == null then {} else {batch}
      ensures submitted == (if batch != null && Succeeds(checkIn, oneshot) then Submit(old(submitted), mappings, batch)
                            else old(submitted))
      ensures requests == old(requests) + Times(hosts, if batch == null then 0 else Attempts(checkIn, oneshot))
      ensures dealt == BatchDealt(mappings, hosts, checkIn, oneshot)
    {
      batch, dealt := null, {};
      if |hosts| > 0 {
        var sent;
        batch, sent := SendBatch(hosts, checkIn);
        if sent {
          RecordSubmitted(mappings, batch);
        }
        if Errs(checkIn, oneshot) {
          dealt := set x | x in mappings :: x.key;
        }
      }
    }

    /** In one-shot mode the thread stops once every source has been dealt with, and drops the sources it has sent. */
    method Finish(dealt: set<string>, sent: set<string>)
      requires Valid()
      modifies this`stopped, this`sourceKeys
      ensures Valid()
      ensures stopped == (old(stopped) || (oneshot && forall k :: k in old(sourceKeys) ==> k in dealt))
      ensures sourceKeys == if oneshot then Except(old(sourceKeys), sent) else old(sourceKeys)
    {
      if oneshot {
        if forall k :: k in sourceKeys ==> k in dealt {
          stopped := true;
        }
        ExceptDistinct(sourceKeys, sent);
        sourceKeys := Except(sourceKeys, sent);
      }
    }

    /** Sends the mappings as one batch and the guest lists one by one. */
    method SendAll(items: seq<Item>, checkIn: Delivery, replies: string -> Delivery)
      returns (batch: Batch?, dealt: set<string>, sent: set<string>)
      requires Valid() && !initial
      modifies this`last, this`submitted, this`requests, this`intervalModifier, this`waits, this`batches
      ensures Valid() && (batch == null <==> AllHosts(items) == [])
      ensures batch != null ==> fresh(batch) && batch.hosts == AllHosts(items)
      ensures batches == old(batches) + if batch == null then {} else {batch}
      ensures last == Remember(Forget(old(last), items), ListsToSend(items, printing), replies, oneshot)
      ensures submitted == (if batch != null && Succeeds(checkIn, oneshot)
                            then Submit(old(submitted), Mappings(items), batch)
                            else old(submitted))
      ensures requests == old(requests) + Times(AllHosts(items), if batch == null then 0
                                                else Attempts(checkIn, oneshot))
      ensures dealt == BatchDealt(Mappings(items), AllHosts(items), checkIn, oneshot)
                       + ListsDealt(ListsToSend(items, printing), replies, oneshot)
      ensures sent == ListsSent(ListsToSend(items, printing), replies, oneshot)
    {
      var hosts, guests, mappings, guestLists := Collect(items);
      batch, dealt := SendMappings(hosts, mappings, checkIn);
      if printing {
        guestLists := [];
      }
      var listsDealt;
      listsDealt, sent := SendGuestLists(guestLists, replies);
      dealt := dealt + listsDealt;
    }

    /** Sends what was gathered. */
    method SendData(items: seq<Item>, checkIn: Delivery, replies: string -> Delivery) returns (batch: Batch?)
      requires Valid() && !initial
      modifies this`last, this`submitted, this`requests, this`intervalModifier, this`waits, this`batches,
               this`stopped, this`sourceKeys
      ensures Valid() && (batch == null <==> AllHosts(items) == [])
      ensures batch != null ==> fresh(batch) && batch.hosts == AllHosts(items)
      ensures batches == old(batches) + if batch == null then {} else {batch}
      ensures last == Remember(Forget(old(last), items), ListsToSend(items, printing), replies, oneshot)
      ensures submitted == (if batch != null && Succeeds(checkIn, oneshot)
                            then Submit(old(submitted), Mappings(items), batch)
                            else old(submitted))
      ensures requests == old(requests) + Times(AllHosts(items), if batch == null then 0
                                                else Attempts(checkIn, oneshot))
      ensures stopped == (old(stopped) || Stops(old(sourceKeys), items, checkIn, replies, printing, oneshot))
      ensures sourceKeys == KeysLeft(old(sourceKeys), items, replies, printing, oneshot)
    {
      batch := null;
      if |items| == 0 {
        return;
      }
      var dealt, sent;
      batch, dealt, sent := SendAll(items, checkIn, replies);
      DealtInParts(items, checkIn, replies, printing, oneshot);
      Finish(dealt + FailedKeys(items, oneshot), sent);
    }

    /** Sends what was gathered, and keeps the batch that was made. */
    method SendGathered(items: seq<Item>, checkIn: Delivery, replies: string -> Delivery) returns (batch: Batch?)
      requires Valid() && !initial
      modifies this`last, this`submitted, this`requests, this`intervalModifier, this`waits, this`batches,
               this`stopped, this`sourceKeys
      ensures Valid() && (batch == null <==> AllHosts(items) == [])
              && (batch != null ==> batch.hosts == AllHosts(items))
      ensures requests == old(requests) + Times(AllHosts(items), if batch == null then 0
                                                else Attempts(checkIn, oneshot))
      ensures Remembered() == AfterReport(old(Remembered()), items, batch, JobOf(batch), checkIn, replies, printing,
                                          oneshot)
      ensures stopped == (old(stopped) || Stops(old(sourceKeys), items, checkIn, replies, printing, oneshot))
      ensures sourceKeys == KeysLeft(old(sourceKeys), items, replies, printing, oneshot)
    {
      ghost var was := Remembered();
      batch := SendData(items, checkIn, replies);
      assert Remembered().jobs == if batch == null then was.jobs else was.jobs[batch := JobOf(batch)];
      AfterReportIs(was, Remembered(), items, batch, JobOf(batch), checkIn, replies, printing, oneshot);
    }

    /** One round of the loop, once the first reports have been gathered. */
    method RunOnce(store: map<string, Report>, polls: string -> Poll, checkIn: Delivery, replies: string -> Delivery)
      returns (batch: Batch?, ghost items: seq<Item>)
      requires Valid() && !initial && forall k: string :: Honest(polls(k))
      modifies this, batches
      ensures Valid() && !initial
      ensures items == VisitAll(old(Remembered()), old(sourceKeys), store, polls, oneshot).1
      ensures (batch == null <==> AllHosts(items) == []) && (batch != null ==> batch.hosts == AllHosts(items))
      ensures requests == old(requests) + Times(AllHosts(items), if batch == null then 0
                                                else Attempts(checkIn, oneshot))
      ensures Remembered() == Next(old(Remembered()),
                                   Round(old(sourceKeys), store, polls, batch, JobOf(batch), checkIn, replies),
                                   printing, oneshot)
      ensures stopped == (old(stopped) || Stops(old(sourceKeys), items, checkIn, replies, printing, oneshot))
      ensures sourceKeys == KeysLeft(old(sourceKeys), items, replies, printing, oneshot)
    {
      var reports := GetDataCommon(sourceKeys, store, polls, true);
      items := reports;
      batch := SendGathered(reports, checkIn, replies);
    }

    ghost function JobOf(batch: Batch?): JobState
      reads batch
    {
      if batch == null then Created else batch.state
    }

    /** The first round, which waits for the sources to report. */
    method RunFirst(stores: seq<map<string, Report>>, polls: string -> Poll, checkIn: Delivery,
                    replies: string -> Delivery)
      returns (batch: Batch?, ghost items: seq<Item>)
      requires Valid() && initial && sourceKeys != [] && forall k: string :: Honest(polls(k))
      modifies this, batches
      ensures Valid() && !initial
      ensures Distinct(KeysOf(items)) && forall item :: item in items ==>
                item.key in old(sourceKeys) && IsFirst(stores, item)
      ensures (batch == null <==> AllHosts(items) == []) && (batch != null ==> batch.hosts == AllHosts(items))
      ensures requests == old(requests) + Times(AllHosts(items), if batch == null then 0
                                                else Attempts(checkIn, oneshot))
      ensures Remembered() == Next(old(Remembered()),
                                   Round(KeysOf(items), StoreOf(items), polls, batch, JobOf(batch), checkIn, replies),
                                   printing, oneshot)
      ensures stopped == (old(stopped) || Stops(old(sourceKeys), items, checkIn, replies, printing, oneshot))
      ensures sourceKeys == KeysLeft(old(sourceKeys), items, replies, printing, oneshot)
    {
      var reports := GetDataInitial(stores, polls);
      items := reports;
      FirstRound(Remembered(), items, polls, oneshot);
      batch := SendGathered(reports, checkIn, replies);
    }
  }

  /** The guest lists to deliver: none when reports are only printed. */
  function ListsToSend(items: seq<Item>, printing: bool): seq<Item> {
    if printing then [] else GuestLists(items)
  }

  /** In one-shot mode the thread stops once every source is dealt with by one report. */
  predicate Stops(keys: seq<string>, items: seq<Item>, checkIn: Delivery, replies: string -> Delivery, printing: bool,
                  oneshot: bool)
  {
    items != [] && oneshot && forall k :: k in keys ==> k in DealtKeys(items, checkIn, replies, printing, oneshot)
  }

  /** In one-shot mode the sources whose guest lists were delivered are dropped. */
  function KeysLeft(keys: seq<string>, items: seq<Item>, replies: string -> Delivery, printing: bool,
                    oneshot: bool): seq<string>
  {
    if items != [] && oneshot then Except(keys, ListsSent(ListsToSend(items, printing), replies, oneshot)) else keys
  }

  function FailedKeys(items: seq<Item>, oneshot: bool): set<string> {
    set x | x in items && x.report.Failure? && oneshot :: x.key
  }

  function BatchDealt(mappings: seq<Item>, hosts: seq<Hypervisor>, checkIn: Delivery, oneshot: bool): set<string> {
    set x | x in mappings && hosts != [] && Errs(checkIn, oneshot) :: x.key
  }

  function ListsSent(items: seq<Item>, replies: string -> Delivery, oneshot: bool): set<string> {
    set x | x in items && Delivered(replies(x.key), oneshot) :: x.key
  }

  function ListsDealt(items: seq<Item>, replies: string -> Delivery, oneshot: bool): set<string> {
    set x | x in items && (Delivered(replies(x.key), oneshot) || Errs(replies(x.key), oneshot)) :: x.key
  }

  lemma OneMoreList(items: seq<Item>, i: nat, replies: string -> Delivery, oneshot: bool)
    requires i < |items|
    ensures var k := items[i].key;
            && ListsSent(items[..i + 1], replies, oneshot) ==
                 ListsSent(items[..i], replies, oneshot) + (if Delivered(replies(k), oneshot) then {k} else {})
            && ListsDealt(items[..i + 1], replies, oneshot) ==
                 ListsDealt(items[..i], replies, oneshot)
                 + (if Delivered(replies(k), oneshot) || Errs(replies(k), oneshot) then {k} else {})
  {
    assert items[..i + 1] == items[..i] + [items[i]];
  }

  lemma RememberNext(last: map<string, Hash>, items: seq<Item>, i: nat, replies: string -> Delivery, oneshot: bool)
    requires i < |items|
    ensures Remember(last, items[i..], replies, oneshot) ==
              Remember(if Delivered(replies(items[i].key), oneshot) then last[items[i].key := HashOf(items[i].report)]
                       else last,
                       items[i + 1..], replies, oneshot)
  {
    assert items[i..][0] == items[i] && items[i..][1..] == items[i + 1..];
  }

  function DealtKeys(items: seq<Item>, checkIn: Delivery, replies: string -> Delivery, printing: bool,
                     oneshot: bool): set<string>
  {
    set x | x in items && Dealt(x, items, checkIn, replies, printing, oneshot) :: x.key
  }

  lemma DealtInParts(items: seq<Item>, checkIn: Delivery, replies: string -> Delivery, printing: bool, oneshot: bool)
    ensures DealtKeys(items, checkIn, replies, printing, oneshot) ==
              BatchDealt(Mappings(items), AllHosts(items), checkIn, oneshot)
              + ListsDealt(ListsToSend(items, printing), replies, oneshot)
              + FailedKeys(items, oneshot)
  {
  }

  function Except(keys: seq<string>, gone: set<string>): (r: seq<string>)
    ensures forall k :: k in r <==> k in keys && k !in gone
  {
    if keys == [] then [] else (if keys[0] in gone then [] else [keys[0]]) + Except(keys[1..], gone)
  }

  lemma {:induction false} ExceptDistinct(keys: seq<string>, gone: set<string>)
    requires Distinct(keys)
    ensures Distinct(Except(keys, gone))
  {
    if keys != [] {
      ExceptDistinct(keys[1..], gone);
      var rest := Except(keys[1..], gone);
      forall k | k in rest ensures k != keys[0] {
        var i :| 1 <= i < |keys| && keys[i] == k;
      }
    }
  }

  /** How often a delivery is tried. */
  function Attempts(d: Delivery, oneshot: bool): nat {
    if oneshot && d.throttles != [] then 1 else |d.throttles| + if d.last.Stopped? then 0 else 1
  }

  function Times<T>(x: T, n: nat): seq<T> {
    if n == 0 then [] else Times(x, n - 1) + [x]
  }

  /** Reports sorted by kind, and the digests that are left. */
  datatype Parts = Parts(hosts: seq<Hypervisor>, mappings: seq<Item>, guestLists: seq<Item>, last: map<string, Hash>)

  function AddPart(p: Parts, item: Item): Parts {
    match item.report
    case Mapping(_, _) => Parts(p.hosts + HostsOf(item.report), p.mappings + [item], p.guestLists,
                                if IsEmpty(item.report) then p.last - {item.key} else p.last)
    case GuestList(_, _) => p.(guestLists := p.guestLists + [item])
    case Failure(_) => p
  }

  function PartsOf(items: seq<Item>, last: map<string, Hash>): Parts {
    if items == [] then Parts([], [], [], last)
    else AddPart(PartsOf(items[..|items| - 1], last), items[|items| - 1])
  }

  lemma {:induction false} PartsAre(items: seq<Item>, last: map<string, Hash>)
    ensures PartsOf(items, last) == Parts(AllHosts(items), Mappings(items), GuestLists(items), Forget(last, items))
  {
    if items != [] {
      var before := items[..|items| - 1];
      PartsAre(before, last);
      assert AllHosts(before) + [] == AllHosts(before);
      assert Mappings(before) + [] == Mappings(before) && GuestLists(before) + [] == GuestLists(before);
    }
  }

  lemma {:induction false} GuestCountOfJoined(first: seq<Hypervisor>, second: seq<Hypervisor>)
    ensures GuestCount(first + second) == GuestCount(first) + GuestCount(second)
  {
    if first == [] {
      assert first + second == second;
    } else {
      assert (first + second)[1..] == first[1..] + second;
      GuestCountOfJoined(first[1..], second);
    }
  }

  /** The report is the first that the datastore had for its source. */
  ghost predicate IsFirst(stores: seq<map<string, Report>>, item: Item) {
    exists j :: 0 <= j < |stores| && FirstAt(stores, item, j)
  }

  ghost predicate FirstAt(stores: seq<map<string, Report>>, item: Item, j: nat)
    requires j < |stores|
  {
    item.key in stores[j] && stores[j][item.key] == item.report && forall k :: 0 <= k < j ==> item.key !in stores[k]
  }

  /** What the datastore has for some sources. */
  function InStore(keys: seq<string>, store: map<string, Report>): (r: seq<Item>)
    ensures forall item :: item in r <==> item.key in keys && item.key in store && item.report == store[item.key]
  {
    if keys == [] then []
    else (if keys[0] in store then [Item(keys[0], store[keys[0]])] else []) + InStore(keys[1..], store)
  }

  function KeySet(items: seq<Item>): set<string> {
    set k | k in KeysOf(items)
  }

  /** After some looks at the datastore, each source either has its first report or had none. */
  ghost predicate Gathered(reports: seq<Item>, keys: seq<string>, stores: seq<map<string, Report>>, looks: nat)
    requires looks <= |stores|
  {
    && Distinct(KeysOf(reports))
    && (forall item :: item in reports ==> item.key in keys && IsFirst(stores, item))
    && (forall k, j :: k in keys && k !in KeysOf(reports) && 0 <= j < looks ==> k !in stores[j])
  }

  ghost predicate AreRemaining(remaining: seq<string>, keys: seq<string>, reports: seq<Item>) {
    Distinct(remaining) && forall k :: k in remaining <==> k in keys && k !in KeysOf(reports)
  }

  lemma {:induction false} VisitAllFresh(s: State, keys: seq<string>, store: map<string, Report>,
                                         polls: string -> Poll, oneshot: bool)
    requires Consistent(s) && s.last == map[] && s.submitted == map[]
    ensures VisitAll(s, keys, store, polls, oneshot) == (s, InStore(keys, store))
    decreases keys
  {
    if keys != [] {
      VisitAllFresh(s, keys[1..], store, polls, oneshot);
    }
  }

  lemma {:induction false} InStoreDistinct(keys: seq<string>, store: map<string, Report>)
    requires Distinct(keys)
    ensures Distinct(KeysOf(InStore(keys, store)))
  {
    if keys != [] {
      InStoreDistinct(keys[1..], store);
      var rest := InStore(keys[1..], store);
      forall item | item in rest ensures item.key != keys[0] {
        var i :| 1 <= i < |keys| && keys[i] == item.key;
      }
      if keys[0] in store {
        DistinctWithFirst(Item(keys[0], store[keys[0]]), rest);
      } else {
        assert [] + rest == rest;
      }
    }
  }

  lemma KeysInItems(items: seq<Item>, key: string)
    ensures key in KeysOf(items) <==> exists item :: item in items && item.key == key
  {
    if key in KeysOf(items) {
      var i :| 0 <= i < |items| && KeysOf(items)[i] == key;
      assert items[i] in items;
    }
    if item :| item in items && item.key == key {
      var i :| 0 <= i < |items| && items[i] == item;
      assert KeysOf(items)[i] == key;
    }
  }

  lemma KeysInStore(keys: seq<string>, store: map<string, Report>, k: string)
    ensures k in KeysOf(InStore(keys, store)) <==> k in keys && k in store
  {
    KeysInItems(InStore(keys, store), k);
    if k in keys && k in store {
      assert Item(k, store[k]) in InStore(keys, store);
    }
  }

  lemma {:induction false} DistinctJoined(first: seq<Item>, second: seq<Item>)
    requires Distinct(KeysOf(first)) && Distinct(KeysOf(second)) && forall x :: x in second ==> x.key !in KeysOf(first)
    ensures Distinct(KeysOf(first + second))
  {
    var keys := KeysOf(first + second);
    assert keys == KeysOf(first) + KeysOf(second);
    forall i, j | 0 <= i < j < |keys| ensures keys[i] != keys[j] {
      if i < |first| <= j {
        assert second[j - |first|] in second && KeysOf(first)[i] in KeysOf(first);
      }
    }
  }

  lemma {:induction false} GatherMore(reports: seq<Item>, keys: seq<string>, stores: seq<map<string, Report>>, i: nat,
                                      remaining: seq<string>)
    requires i < |stores| && Gathered(reports, keys, stores, i) && AreRemaining(remaining, keys, reports)
    ensures var found := InStore(remaining, stores[i]);
            && Gathered(reports + found, keys, stores, i + 1)
            && AreRemaining(Except(remaining, KeySet(found)), keys, reports + found)
  {
    var found := InStore(remaining, stores[i]);
    InStoreDistinct(remaining, stores[i]);
    ExceptDistinct(remaining, KeySet(found));
    DistinctJoined(reports, found);
    assert KeysOf(reports + found) == KeysOf(reports) + KeysOf(found);
    forall item | item in found ensures IsFirst(stores, item) {
      assert FirstAt(stores, item, i);
    }
    forall k, j | k in keys && k !in KeysOf(reports + found) && 0 <= j < i + 1 ensures k !in stores[j] {
      KeysInStore(remaining, stores[i], k);
    }
  }

  function TimeToWait(modifier: int, firstAttempt: bool): int {
    if modifier != 0 then modifier
    else if firstAttempt then MINIMUM_JOB_POLL_INTERVAL else MINIMUM_JOB_POLL_INTERVAL * 2
  }

  /** The waits before the requests of one check. */
  function PollWaits(modifier: int, throttles: seq<Option<int>>, givesUp: bool): seq<int> {
    [TimeToWait(modifier, true)] + if givesUp then [] else RetryWaits(throttles)
  }

  /** After each throttle the time asked for, or twice the usual interval when none is. */
  function RetryWaits(throttles: seq<Option<int>>): seq<int> {
    if throttles == [] then [] else [TimeToWait(RetryAfter(throttles[0]), false)] + RetryWaits(throttles[1..])
  }

  /**
   A check first waits for what a throttle has asked for, or the shortest interval. If it goes on, it waits after each
   throttle for the time asked for, or twice the shortest interval when none or zero is given.
   */
  lemma {:induction false} WaitsOfCheck(modifier: int, throttles: seq<Option<int>>, givesUp: bool)
    ensures var waits := PollWaits(modifier, throttles, givesUp);
            && |waits| == 1 + (if givesUp then 0 else |throttles|)
            && waits[0] == (if modifier != 0 then modifier else 15)
            && forall i :: 0 <= i < |throttles| && !givesUp ==>
                 waits[i + 1] == if throttles[i].Some? && throttles[i].value != 0 then throttles[i].value else 30
  {
    OneWaitEach(throttles);
    if !givesUp {
      forall i | 0 <= i < |throttles|
        ensures RetryWaits(throttles)[i] ==
                  if throttles[i].Some? && throttles[i].value != 0 then throttles[i].value else 30
      {
        RetryWaitAt(throttles, i);
      }
    }
  }

  lemma {:induction false} OneWaitEach(throttles: seq<Option<int>>)
    ensures |RetryWaits(throttles)| == |throttles|
  {
    if throttles != [] {
      OneWaitEach(throttles[1..]);
    }
  }

  lemma {:induction false} RetryWaitAt(throttles: seq<Option<int>>, i: nat)
    requires i < |throttles| == |RetryWaits(throttles)|
    ensures RetryWaits(throttles)[i] ==
              if throttles[i].Some? && throttles[i].value != 0 then throttles[i].value else 30
  {
    if i > 0 {
      RetryWaitAt(throttles[1..], i - 1);
    }
  }

  lemma WaitsFrom(throttles: seq<Option<int>>, i: nat)
    requires i <= |throttles|
    ensures throttles[0..] == throttles
    ensures i > 0 ==>
              RetryWaits(throttles[i - 1..])
              == [TimeToWait(RetryAfter(throttles[i - 1]), false)] + RetryWaits(throttles[i..])
    ensures i == |throttles| ==> RetryWaits(throttles[i..]) == []
  {
    if i > 0 {
      assert throttles[i - 1..][1..] == throttles[i..];
    }
  }
}
