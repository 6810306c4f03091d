/**
 What the reporting loop remembers about one source, turn by turn, and when it sends the same
 report twice (DestinationThread in virt/virt.py).
 */
module ReportCycle {
  import opened Options
  import opened HostMapping
  import opened StableSort

  /** What a source has in the datastore: a mapping, a plain list of guests, or an error. */
  datatype Report =
    | Mapping(hosts: seq<Hypervisor>, filters: Filters)
    | GuestList(guests: seq<Guest>, hypervisorId: string)
    | Failure(config: string)

  datatype Hash =
    | OfMapping(hosts: seq<HostEntry>)
    | OfGuests(guests: seq<GuestEntry>, hypervisorId: string)
    | OfFailure(config: string)

  function HashOf(r: Report): Hash {
    match r
    case Mapping(hosts, filters) => OfMapping(Canonical(Filtered(hosts, filters)))
    case GuestList(guests, hypervisorId) => OfGuests(CanonicalGuests(guests), hypervisorId)
    case Failure(config) => OfFailure(config)
  }

  /** The host passes the filters of the mapping. */
  predicate IsReported(r: Report, h: Hypervisor)
    requires r.Mapping?
  {
    && h in r.hosts
    && (r.filters.excluded.Some? ==> h.id !in r.filters.excluded.value)
    && (r.filters.wanted.Some? ==> h.id in r.filters.wanted.value)
  }

  /** Every host that the one mapping reports is reported by the other, with the same guests. */
  ghost predicate Covers(r: Report, s: Report)
    requires r.Mapping? && s.Mapping?
  {
    forall h :: h in r.hosts && IsReported(r, h) ==> exists g :: g in s.hosts && IsReported(s, g) && SameHost(g, h)
  }

  /** With distinct ids, mappings share a digest exactly when they report the same hosts with the same guests. */
  lemma MappingsSameDigestIff(r: Report, s: Report)
    requires r.Mapping? && s.Mapping? && DistinctHosts(r.hosts) && DistinctHosts(s.hosts)
    ensures HashOf(r) == HashOf(s) <==> Covers(r, s) && Covers(s, r)
  {
    var a, b := Filtered(r.hosts, r.filters), Filtered(s.hosts, s.filters);
    FilteredStaysDistinct(r.hosts, r.filters);
    FilteredStaysDistinct(s.hosts, s.filters);
    CanonicalSameIff(a, b);
    CoversIsWithin(r, s);
    CoversIsWithin(s, r);
  }

  lemma CoversIsWithin(r: Report, s: Report)
    requires r.Mapping? && s.Mapping?
    ensures Covers(r, s) <==> HostMapping.Within(Filtered(r.hosts, r.filters), Filtered(s.hosts, s.filters))
  {
    var a, b := Filtered(r.hosts, r.filters), Filtered(s.hosts, s.filters);
    assert forall h :: h in a <==> h in r.hosts && IsReported(r, h);
    assert forall g :: g in b <==> g in s.hosts && IsReported(s, g);
    if Covers(r, s) {
      forall h | h in a ensures exists g :: g in b && SameHost(h, g) {
        var g :| g in s.hosts && IsReported(s, g) && SameHost(g, h);
        assert SameHost(h, g);
      }
    }
    if HostMapping.Within(a, b) {
      forall h | h in r.hosts && IsReported(r, h)
        ensures exists g :: g in s.hosts && IsReported(s, g) && SameHost(g, h)
      {
        var g :| g in b && SameHost(h, g);
        assert SameHost(g, h);
      }
    }
  }

  /** With distinct ids, guest lists share a digest exactly when they hold the same guests on the same hypervisor. */
  lemma GuestListsSameDigestIff(r: Report, s: Report)
    requires r.GuestList? && s.GuestList? && DistinctGuests(r.guests) && DistinctGuests(s.guests)
    ensures HashOf(r) == HashOf(s) <==> r.hypervisorId == s.hypervisorId && multiset(r.guests) == multiset(s.guests)
  {
    GuestsSameIff(r.guests, s.guests);
  }

  /** Reports of different kinds never share a digest. */
  lemma KindsHaveOwnDigests(r: Report, s: Report)
    requires HashOf(r) == HashOf(s)
    ensures (r.Mapping? <==> s.Mapping?) && (r.GuestList? <==> s.GuestList?) && (r.Failure? <==> s.Failure?)
  {
  }

  datatype JobState = Created | Processing | Finished | Failed | Canceled

  predicate Terminal(state: JobState) {
    state.Finished? || state.Failed? || state.Canceled?
  }

  /** The digest of the last report known to be accepted, and of the one whose job is outstanding. */
  datatype Source = Source(last: Option<Hash>, pending: Option<Hash>)

  const FRESH := Source(None, None)

  /** One turn for one source: its report, the state its outstanding job is seen in, and whether delivery succeeds. */
  datatype Turn = Turn(report: Option<Report>, seen: JobState, sent: bool)

  /** What the source becomes when its report is looked at, and whether the report is to be sent. */
  function Fetch(s: Source, report: Option<Report>, seen: JobState): (Source, bool) {
    if report.None? then (s, false)
    else if s.pending.Some? then
      match seen
      case Finished => (Source(s.pending, None), HashOf(report.value) != s.pending.value)
      case Processing => (s, false)
      case _ => (Source(s.last, None), true)
    else (s, s.last != Some(HashOf(report.value)))
  }

  predicate IsEmpty(r: Report) {
    r.Mapping? && Filtered(r.hosts, r.filters) == []
  }

  /** A mapping is empty exactly when no host is reported; other reports never are. */
  lemma EmptyIff(r: Report)
    ensures IsEmpty(r) <==> r.Mapping? && forall h :: h in r.hosts ==> !IsReported(r, h)
  {
    if r.Mapping? {
      var kept := Filtered(r.hosts, r.filters);
      assert forall h :: h in kept <==> h in r.hosts && IsReported(r, h);
      if kept != [] {
        assert kept[0] in kept;
      }
    }
  }

  /** What the source becomes when its report is sent. */
  function Deliver(s: Source, r: Report, sent: bool): Source {
    match r
    case Mapping(_, _) => Source(if IsEmpty(r) then None else s.last, if sent then Some(HashOf(r)) else s.pending)
    case GuestList(_, _) => if sent then s.(last := Some(HashOf(r))) else s
    case Failure(_) => s
  }

  function Step(s: Source, t: Turn): Source {
    var (fetched, offered) := Fetch(s, t.report, t.seen);
    if offered then Deliver(fetched, t.report.value, t.sent) else fetched
  }

  // ----- what a run does -----

  /** A report was submitted; the server was seen to have finished with it; the remembered digest was cleared. */
  datatype Event = Submitted(hash: Hash) | Accepted(hash: Hash) | Cleared

  function FetchEvents(s: Source, t: Turn): seq<Event> {
    if t.report.Some? && s.pending.Some? && t.seen.Finished? then [Accepted(s.pending.value)] else []
  }

  function DeliverEvents(s: Source, r: Report, sent: bool): seq<Event> {
    match r
    case Mapping(_, _) => (if IsEmpty(r) && s.last.Some? then [Cleared] else [])
      + (if sent then [Submitted(HashOf(r))] else [])
    case GuestList(_, _) => if sent then [Submitted(HashOf(r)), Accepted(HashOf(r))] else []
    case Failure(_) => []
  }

  function StepEvents(s: Source, t: Turn): seq<Event> {
    var (fetched, offered) := Fetch(s, t.report, t.seen);
    FetchEvents(s, t) + if offered then DeliverEvents(fetched, t.report.value, t.sent) else []
  }

  function Run(s: Source, turns: seq<Turn>): seq<Event>
    decreases turns
  {
    if turns == [] then [] else StepEvents(s, turns[0]) + Run(Step(s, turns[0]), turns[1..])
  }

  /** What the events so far leave: the last submission, whether it was accepted, whether memory was cleared since. */
  datatype Memory = Memory(submitted: Option<Hash>, accepted: bool, cleared: bool)

  function Recall(m: Memory, e: Event): Memory {
    match e
    case Submitted(hash) => Memory(Some(hash), false, false)
    case Accepted(hash) => if m.submitted == Some(hash) then m.(accepted := true) else m
    case Cleared => m.(cleared := true)
  }

  function RecallAll(m: Memory, events: seq<Event>): Memory
    decreases events
  {
    if events == [] then m else RecallAll(Recall(m, events[0]), events[1..])
  }

  predicate Repeats(m: Memory, hash: Hash) {
    m.submitted == Some(hash) && m.accepted && !m.cleared
  }

  /** No submission repeats one that was accepted and not cleared. */
  ghost predicate NoRepeat(m: Memory, events: seq<Event>)
    decreases events
  {
    events == []
    || (!(events[0].Submitted? && Repeats(m, events[0].hash))
        && NoRepeat(Recall(m, events[0]), events[1..]))
  }

  /** The source still knows what the events tell. */
  ghost predicate Knows(s: Source, m: Memory) {
    && (s.pending.Some? ==> m.submitted == s.pending && !m.accepted)
    && (m.submitted.Some? && m.accepted && !m.cleared ==> s.last == m.submitted && s.pending.None?)
  }

  lemma {:induction false} NoRepeatInTurn(m: Memory, first: seq<Event>, second: seq<Event>)
    requires NoRepeat(m, first) && NoRepeat(RecallAll(m, first), second)
    ensures NoRepeat(m, first + second) && RecallAll(m, first + second) == RecallAll(RecallAll(m, first), second)
    decreases first
  {
    if first == [] {
      assert first + second == second;
    } else {
      assert (first + second)[1..] == first[1..] + second;
      NoRepeatInTurn(Recall(m, first[0]), first[1..], second);
    }
  }

  lemma OneEvent(m: Memory, e: Event)
    requires !(e.Submitted? && Repeats(m, e.hash))
    ensures NoRepeat(m, [e]) && RecallAll(m, [e]) == Recall(m, e)
  {
    assert [e][1..] == [];
  }

  lemma {:induction false} FetchKnows(s: Source, m: Memory, t: Turn)
    requires Knows(s, m)
    ensures NoRepeat(m, FetchEvents(s, t)) && Knows(Fetch(s, t.report, t.seen).0, RecallAll(m, FetchEvents(s, t)))
    ensures Fetch(s, t.report, t.seen).1 ==> Fetch(s, t.report, t.seen).0.pending.None? && t.report.Some?
                                             && !Repeats(RecallAll(m, FetchEvents(s, t)), HashOf(t.report.value))
  {
    if FetchEvents(s, t) != [] {
      OneEvent(m, Accepted(s.pending.value));
    }
  }

  lemma {:induction false} DeliverKnows(s: Source, m: Memory, r: Report, sent: bool)
    requires Knows(s, m) && s.pending.None? && !Repeats(m, HashOf(r))
    ensures NoRepeat(m, DeliverEvents(s, r, sent))
            && Knows(Deliver(s, r, sent), RecallAll(m, DeliverEvents(s, r, sent)))
  {
    var h := HashOf(r);
    if r.Mapping? {
      var clear := if IsEmpty(r) && s.last.Some? then [Cleared] else [];
      var cleared := RecallAll(m, clear);
      if clear != [] {
        OneEvent(m, Cleared);
      }
      if sent {
        OneEvent(cleared, Submitted(h));
        NoRepeatInTurn(m, clear, [Submitted(h)]);
      } else {
        assert DeliverEvents(s, r, sent) == clear;
      }
    } else if r.GuestList? && sent {
      OneEvent(m, Submitted(h));
      OneEvent(Recall(m, Submitted(h)), Accepted(h));
      assert [Submitted(h), Accepted(h)] == [Submitted(h)] + [Accepted(h)];
      NoRepeatInTurn(m, [Submitted(h)], [Accepted(h)]);
    }
  }

  lemma {:induction false} StepKnows(s: Source, m: Memory, t: Turn)
    requires Knows(s, m)
    ensures NoRepeat(m, StepEvents(s, t)) && Knows(Step(s, t), RecallAll(m, StepEvents(s, t)))
  {
    var (fetched, offered) := Fetch(s, t.report, t.seen);
    FetchKnows(s, m, t);
    if offered {
      var later := RecallAll(m, FetchEvents(s, t));
      DeliverKnows(fetched, later, t.report.value, t.sent);
      NoRepeatInTurn(m, FetchEvents(s, t), DeliverEvents(fetched, t.report.value, t.sent));
    } else {
      assert StepEvents(s, t) == FetchEvents(s, t);
    }
  }

  lemma {:induction false} RunNeverRepeats(s: Source, m: Memory, turns: seq<Turn>)
    requires Knows(s, m)
    ensures NoRepeat(m, Run(s, turns))
    decreases turns
  {
    if turns != [] {
      StepKnows(s, m, turns[0]);
      var events := StepEvents(s, turns[0]);
      RunNeverRepeats(Step(s, turns[0]), RecallAll(m, events), turns[1..]);
      NoRepeatInTurn(m, events, Run(Step(s, turns[0]), turns[1..]));
    }
  }

  // ----- over every run -----

  /** The same report is submitted at i and then at j, with no submission between. */
  ghost predicate SentAgain(events: seq<Event>, i: nat, j: nat) {
    && i < j < |events| && events[i].Submitted? && events[j] == events[i]
    && forall k :: i < k < j ==> !events[k].Submitted?
  }

  lemma {:induction false} RecallBetween(m: Memory, events: seq<Event>, h: Hash)
    requires m.submitted == Some(h) && forall k :: 0 <= k < |events| ==> !events[k].Submitted?
    ensures var r := RecallAll(m, events);
            && r.submitted == Some(h)
            && (r.accepted <==> m.accepted || Accepted(h) in events)
            && (r.cleared <==> m.cleared || Cleared in events)
    decreases events
  {
    if events != [] {
      RecallBetween(Recall(m, events[0]), events[1..], h);
    }
  }

  lemma {:induction false} NoRepeatAt(m: Memory, events: seq<Event>, i: nat)
    requires NoRepeat(m, events) && i < |events|
    ensures events[i].Submitted? ==> !Repeats(RecallAll(m, events[..i]), events[i].hash)
    decreases events
  {
    if i == 0 {
      assert events[..0] == [];
    } else {
      NoRepeatAt(Recall(m, events[0]), events[1..], i - 1);
      assert events[..i][1..] == events[1..][..i - 1];
    }
  }

  lemma {:induction false} RecallAllInTurn(m: Memory, first: seq<Event>, second: seq<Event>)
    ensures RecallAll(m, first + second) == RecallAll(RecallAll(m, first), second)
    decreases first
  {
    if first == [] {
      assert first + second == second;
    } else {
      assert (first + second)[1..] == first[1..] + second;
      RecallAllInTurn(Recall(m, first[0]), first[1..], second);
    }
  }

  /**
   In every run of a source, a report is submitted twice in a row only if the server was never seen
   to have finished with the first, or an empty mapping cleared the remembered digest in between.
   */
  lemma {:induction false} SentAgainOnlyIfLostOrCleared(turns: seq<Turn>, i: nat, j: nat)
    requires SentAgain(Run(FRESH, turns), i, j)
    ensures var events := Run(FRESH, turns);
            Accepted(events[i].hash) !in events[i + 1..j] || Cleared in events[i + 1..j]
  {
    var m, events := Memory(None, false, false), Run(FRESH, turns);
    var h, between := events[i].hash, events[i + 1..j];
    RunNeverRepeats(FRESH, m, turns);
    NoRepeatAt(m, events, j);
    assert events[..j] == events[..i + 1] + between && events[..i + 1] == events[..i] + [events[i]];
    RecallAllInTurn(m, events[..i + 1], between);
    RecallAllInTurn(m, events[..i], [events[i]]);
    assert [events[i]][1..] == [];
    RecallBetween(Memory(Some(h), false, false), between, h);
  }

  // ----- what is sent -----

  function StepAll(s: Source, turns: seq<Turn>): Source
    decreases turns
  {
    if turns == [] then s else StepAll(Step(s, turns[0]), turns[1..])
  }

  /** The digest accepted last, unless it was cleared since. */
  function LastAccepted(events: seq<Event>): Option<Hash> {
    if events == [] then None
    else
      match events[|events| - 1]
      case Submitted(_) => LastAccepted(events[..|events| - 1])
      case Accepted(hash) => Some(hash)
      case Cleared => None
  }

  lemma {:induction false} LastAcceptedInTurn(first: seq<Event>, second: seq<Event>)
    requires forall i :: 0 <= i < |second| ==> second[i].Submitted?
    ensures LastAccepted(first + second) == LastAccepted(first)
    decreases second
  {
    if second == [] {
      assert first + second == first;
    } else {
      var n := |second| - 1;
      assert (first + second)[..|first + second| - 1] == first + second[..n];
      LastAcceptedInTurn(first, second[..n]);
    }
  }

  lemma LastAcceptedOf(first: seq<Event>, e: Event)
    ensures LastAccepted(first + [e]) ==
              match e
              case Submitted(_) => LastAccepted(first)
              case Accepted(hash) => Some(hash)
              case Cleared => None
  {
    assert (first + [e])[..|first|] == first;
  }

  /** One turn keeps in memory what was accepted last. */
  lemma {:induction false} StepRemembers(s: Source, t: Turn, before: seq<Event>)
    requires LastAccepted(before) == s.last
    ensures LastAccepted(before + StepEvents(s, t)) == Step(s, t).last
  {
    var (fetched, offered) := Fetch(s, t.report, t.seen);
    var first := FetchEvents(s, t);
    var later := before + first;
    assert LastAccepted(later) == fetched.last by {
      if first == [] {
        assert later == before;
      } else {
        LastAcceptedOf(before, first[0]);
      }
    }
    if offered {
      DeliverRemembers(fetched, t.report.value, t.sent, later);
      assert before + (first + DeliverEvents(fetched, t.report.value, t.sent))
          == later + DeliverEvents(fetched, t.report.value, t.sent);
    } else {
      assert StepEvents(s, t) == first;
    }
  }

  lemma {:induction false} DeliverRemembers(s: Source, r: Report, sent: bool, before: seq<Event>)
    requires LastAccepted(before) == s.last
    ensures LastAccepted(before + DeliverEvents(s, r, sent)) == Deliver(s, r, sent).last
  {
    if r.Mapping? {
      var clear := if IsEmpty(r) && s.last.Some? then [Cleared] else [];
      var rest := if sent then [Submitted(HashOf(r))] else [];
      assert before + (clear + rest) == before + clear + rest;
      if clear != [] {
        LastAcceptedOf(before, Cleared);
      } else {
        assert before + clear == before;
      }
      LastAcceptedInTurn(before + clear, rest);
    } else if r.GuestList? && sent {
      var events := [Submitted(HashOf(r)), Accepted(HashOf(r))];
      assert before + events == before + [events[0]] + [events[1]];
      LastAcceptedOf(before + [events[0]], events[1]);
    } else {
      assert before + [] == before;
    }
  }

  lemma EventsInTurn(a: seq<Event>, b: seq<Event>, c: seq<Event>)
    ensures a + (b + c) == a + b + c
  {
  }

  /** After every run the source remembers exactly the digest accepted last and not cleared since. */
  lemma {:induction false} RememberedIsLastAccepted(s: Source, turns: seq<Turn>, before: seq<Event>)
    requires LastAccepted(before) == s.last
    ensures LastAccepted(before + Run(s, turns)) == StepAll(s, turns).last
    decreases turns
  {
    if turns == [] {
      assert before + [] == before;
    } else {
      var events, next := StepEvents(s, turns[0]), Step(s, turns[0]);
      StepRemembers(s, turns[0], before);
      RememberedIsLastAccepted(next, turns[1..], before + events);
      EventsInTurn(before, events, Run(next, turns[1..]));
    }
  }

  lemma {:induction false} RunOneMore(s: Source, turns: seq<Turn>, t: Turn)
    ensures Run(s, turns + [t]) == Run(s, turns) + StepEvents(StepAll(s, turns), t)
    decreases turns
  {
    if turns == [] {
      assert [t][1..] == [] && [] + [t] == [t];
      assert Run(s, [t]) == StepEvents(s, t) + [] && [] + StepEvents(s, t) == StepEvents(s, t);
    } else {
      assert (turns + [t])[1..] == turns[1..] + [t];
      RunOneMore(Step(s, turns[0]), turns[1..], t);
    }
  }

  /**
   After every run that leaves no job outstanding, a report that is delivered is submitted exactly when it differs from
   the one accepted last; a report that does not differ causes nothing.
   */
  lemma ChangedReportIsSubmitted(turns: seq<Turn>, r: Report, seen: JobState)
    requires StepAll(FRESH, turns).pending.None? && !r.Failure?
    ensures var before, after := Run(FRESH, turns), Run(FRESH, turns + [Turn(Some(r), seen, true)]);
            && before <= after
            && (LastAccepted(before) != Some(HashOf(r)) ==> Submitted(HashOf(r)) in after[|before|..])
            && (LastAccepted(before) == Some(HashOf(r)) ==> after == before)
  {
    var t, s := Turn(Some(r), seen, true), StepAll(FRESH, turns);
    RememberedIsLastAccepted(FRESH, turns, []);
    assert [] + Run(FRESH, turns) == Run(FRESH, turns);
    RunOneMore(FRESH, turns, t);
    assert StepEvents(s, t) == [] + if s.last != Some(HashOf(r)) then DeliverEvents(s, r, true) else [];
    if s.last != Some(HashOf(r)) {
      assert StepEvents(s, t) == DeliverEvents(s, r, true);
    }
  }

  /** The digest is cleared exactly when a mapping without reported hosts is offered while one is remembered. */
  lemma ClearedIff(s: Source, t: Turn)
    ensures Cleared in StepEvents(s, t) <==>
              var (fetched, offered) := Fetch(s, t.report, t.seen);
              offered && fetched.last.Some? && t.report.value.Mapping?
              && forall h :: h in t.report.value.hosts ==> !IsReported(t.report.value, h)
  {
    var (fetched, offered) := Fetch(s, t.report, t.seen);
    if offered {
      EmptyIff(t.report.value);
      assert Cleared in DeliverEvents(fetched, t.report.value, t.sent)
             <==> IsEmpty(t.report.value) && fetched.last.Some?;
    }
  }

  /** A job that is outstanding is waited for, accepted, or lost, by the state it is seen in. */
  lemma OutstandingJobDecides(s: Source, r: Report, seen: JobState, sent: bool)
    requires s.pending.Some?
    ensures var t := Turn(Some(r), seen, sent);
            && (seen.Processing? ==> StepEvents(s, t) == [] && Step(s, t) == s)
            && (seen.Finished? ==> StepEvents(s, t) != [] && StepEvents(s, t)[0] == Accepted(s.pending.value))
            && (!seen.Processing? && sent && !r.Failure? && (seen.Finished? ==> s.pending != Some(HashOf(r))) ==>
                  Submitted(HashOf(r)) in StepEvents(s, t))
            && (seen.Finished? && s.pending == Some(HashOf(r)) ==> StepEvents(s, t) == [Accepted(HashOf(r))])
  {
    var (fetched, offered) := Fetch(s, Some(r), seen);
    if offered && sent && !r.Failure? {
      assert Submitted(HashOf(r)) in DeliverEvents(fetched, r, true);
    }
  }

  /** A report whose job is lost is submitted again at once, even if it has not changed. */
  lemma LostReportIsSentAgain(r: Report, state: JobState)
    requires r.Mapping? && !IsEmpty(r) && !state.Finished? && !state.Processing?
    ensures Run(FRESH, [Turn(Some(r), Created, true), Turn(Some(r), state, true)])
            == [Submitted(HashOf(r)), Submitted(HashOf(r))]
  {
    var turns := [Turn(Some(r), Created, true), Turn(Some(r), state, true)];
    assert turns[1..] == [turns[1]] && turns[1..][1..] == [];
    assert Step(FRESH, turns[0]) == Source(None, Some(HashOf(r)));
    assert StepEvents(FRESH, turns[0]) == [Submitted(HashOf(r))];
    assert StepEvents(Source(None, Some(HashOf(r))), turns[1]) == [Submitted(HashOf(r))];
    assert Run(Step(FRESH, turns[0]), turns[1..]) == StepEvents(Source(None, Some(HashOf(r))), turns[1]) + [];
  }

  /** An accepted report is submitted again after an empty mapping has come in between. */
  lemma ClearedReportIsSentAgain(r: Report, empty: Report)
    requires r.Mapping? && !IsEmpty(r) && IsEmpty(empty)
    ensures Run(Source(None, Some(HashOf(r))), [Turn(Some(empty), Finished, false), Turn(Some(r), Created, true)])
            == [Accepted(HashOf(r)), Cleared, Submitted(HashOf(r))]
  {
    var turns := [Turn(Some(empty), Finished, false), Turn(Some(r), Created, true)];
    var s := Source(None, Some(HashOf(r)));
    EmptyHasOtherForm(r, empty);
    assert turns[1..] == [turns[1]] && turns[1..][1..] == [];
    assert Step(s, turns[0]) == FRESH;
    assert StepEvents(s, turns[0]) == [Accepted(HashOf(r)), Cleared];
    assert StepEvents(FRESH, turns[1]) == [Submitted(HashOf(r))];
    assert Run(FRESH, turns[1..]) == StepEvents(FRESH, turns[1]) + [];
  }

  lemma EmptyHasOtherForm(r: Report, empty: Report)
    requires r.Mapping? && !IsEmpty(r) && IsEmpty(empty)
    ensures HashOf(r) != HashOf(empty)
  {
    var hosts := Filtered(r.hosts, r.filters);
    SortedHas(Entries(hosts), HostKey);
    assert |multiset(Entries(hosts))| == |hosts| > 0;
    assert |Canonical(hosts)| == |multiset(Canonical(hosts))|;
  }
}
