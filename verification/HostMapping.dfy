/**
 Host-to-guest mappings, and the canonical form whose digest decides whether a report is sent
 again (virt/virt.py). The digest is taken to tell canonical forms apart, so it is the form itself.
 */
module HostMapping {
  import opened Options
  import opened StableSort

  datatype Guest = Guest(uuid: string, virtType: string, state: nat)

  datatype Hypervisor = Hypervisor(id: string, guests: seq<Guest>, name: Option<string>,
                                   facts: Option<map<string, string>>)

  const STATE_RUNNING := 1
  const STATE_PAUSED := 3

  datatype GuestEntry = GuestEntry(guestId: string, state: nat, virtWhoType: string, active: bool)

  datatype HostEntry = HostEntry(id: string, name: Option<string>, guests: seq<GuestEntry>,
                                 facts: Option<map<string, string>>)

  function EntryOfGuest(g: Guest): GuestEntry {
    GuestEntry(g.uuid, g.state, g.virtType, g.state == STATE_RUNNING || g.state == STATE_PAUSED)
  }

  function EntriesOfGuests(guests: seq<Guest>): (r: seq<GuestEntry>)
    ensures |r| == |guests| && forall i :: 0 <= i < |r| ==> r[i] == EntryOfGuest(guests[i])
  {
    seq(|guests|, i requires 0 <= i < |guests| => EntryOfGuest(guests[i]))
  }

  function GuestKey(e: GuestEntry): string {
    e.guestId
  }

  function CanonicalGuests(guests: seq<Guest>): seq<GuestEntry> {
    Sorted(EntriesOfGuests(guests), GuestKey)
  }

  function EntryOf(h: Hypervisor): HostEntry {
    HostEntry(h.id, h.name, CanonicalGuests(h.guests), h.facts)
  }

  function Entries(hosts: seq<Hypervisor>): (r: seq<HostEntry>)
    ensures |r| == |hosts| && forall i :: 0 <= i < |r| ==> r[i] == EntryOf(hosts[i])
  {
    seq(|hosts|, i requires 0 <= i < |hosts| => EntryOf(hosts[i]))
  }

  function HostKey(e: HostEntry): string {
    e.id
  }

  /** The serialized association, the hosts sorted by their ids and the guests by theirs. */
  function Canonical(hosts: seq<Hypervisor>): seq<HostEntry> {
    Sorted(Entries(hosts), HostKey)
  }

  // ----- what the canonical form tells apart -----

  /** An entry tells which guest it is for, and that it is active exactly when it runs or is paused. */
  lemma EntryTellsGuest(g: Guest)
    ensures var e := EntryOfGuest(g);
            && e.guestId == g.uuid && e.virtWhoType == g.virtType && e.state == g.state
            && (e.active <==> g.state == 1 || g.state == 3)
  {
  }

  ghost predicate DistinctGuests(guests: seq<Guest>) {
    forall i, j :: 0 <= i < j < |guests| ==> guests[i].uuid != guests[j].uuid
  }

  ghost predicate DistinctHosts(hosts: seq<Hypervisor>) {
    && (forall i, j :: 0 <= i < j < |hosts| ==> hosts[i].id != hosts[j].id)
    && (forall h :: h in hosts ==> DistinctGuests(h.guests))
  }

  /** The same host with the same guests, in any order. */
  ghost predicate SameHost(h: Hypervisor, g: Hypervisor) {
    h.id == g.id && h.name == g.name && h.facts == g.facts && multiset(h.guests) == multiset(g.guests)
  }

  ghost predicate Within(a: seq<Hypervisor>, b: seq<Hypervisor>) {
    forall h :: h in a ==> exists g :: g in b && SameHost(h, g)
  }

  lemma {:induction false} SameGuestsSameEntries(a: seq<Guest>, b: seq<Guest>)
    ensures multiset(a) == multiset(b) <==> multiset(EntriesOfGuests(a)) == multiset(EntriesOfGuests(b))
  {
    if multiset(a) == multiset(b) {
      EntriesKeepMultisets(a, b);
    }
    if multiset(EntriesOfGuests(a)) == multiset(EntriesOfGuests(b)) {
      EntriesFixMultisets(a, b);
    }
  }

  lemma {:induction false} CountOfEntry(guests: seq<Guest>, g: Guest)
    ensures multiset(EntriesOfGuests(guests))[EntryOfGuest(g)] == multiset(guests)[g]
  {
    if guests != [] {
      CountOfEntry(guests[1..], g);
      assert EntriesOfGuests(guests)[1..] == EntriesOfGuests(guests[1..]);
      CountFirst(guests, g);
      CountFirst(EntriesOfGuests(guests), EntryOfGuest(g));
      assert EntryOfGuest(guests[0]) == EntryOfGuest(g) <==> guests[0] == g;
    }
  }

  /** With distinct ids, two lists of guests have one canonical form exactly when they hold the same guests. */
  lemma GuestsSameIff(a: seq<Guest>, b: seq<Guest>)
    requires DistinctGuests(a) && DistinctGuests(b)
    ensures CanonicalGuests(a) == CanonicalGuests(b) <==> multiset(a) == multiset(b)
  {
    DistinctGuestEntries(a);
    DistinctGuestEntries(b);
    SortedForgetsOrder(EntriesOfGuests(a), EntriesOfGuests(b), GuestKey);
    SameGuestsSameEntries(a, b);
  }

  lemma CountFirst<T>(s: seq<T>, x: T)
    requires s != []
    ensures multiset(s)[x] == (if s[0] == x then 1 else 0) + multiset(s[1..])[x]
  {
    assert s == [s[0]] + s[1..];
  }

  lemma {:induction false} EntriesKeepMultisets(a: seq<Guest>, b: seq<Guest>)
    requires multiset(a) == multiset(b)
    ensures multiset(EntriesOfGuests(a)) == multiset(EntriesOfGuests(b))
  {
    var x, y := multiset(EntriesOfGuests(a)), multiset(EntriesOfGuests(b));
    forall e ensures x[e] == y[e] {
      var g := Guest(e.guestId, e.virtWhoType, e.state);
      CountOfEntry(a, g);
      CountOfEntry(b, g);
      if e != EntryOfGuest(g) {
        NoSuchEntry(a, e);
        NoSuchEntry(b, e);
      }
    }
  }

  lemma NoSuchEntry(guests: seq<Guest>, e: GuestEntry)
    requires e != EntryOfGuest(Guest(e.guestId, e.virtWhoType, e.state))
    ensures multiset(EntriesOfGuests(guests))[e] == 0
  {
    assert e !in EntriesOfGuests(guests);
  }

  lemma {:induction false} EntriesFixMultisets(a: seq<Guest>, b: seq<Guest>)
    requires multiset(EntriesOfGuests(a)) == multiset(EntriesOfGuests(b))
    ensures multiset(a) == multiset(b)
  {
    forall g ensures multiset(a)[g] == multiset(b)[g] {
      CountOfEntry(a, g);
      CountOfEntry(b, g);
    }
  }

  lemma DistinctGuestEntries(guests: seq<Guest>)
    requires DistinctGuests(guests)
    ensures DistinctKeys(EntriesOfGuests(guests), GuestKey)
  {
  }

  lemma {:induction false} EntrySameIff(h: Hypervisor, g: Hypervisor)
    requires DistinctGuests(h.guests) && DistinctGuests(g.guests)
    ensures EntryOf(h) == EntryOf(g) <==> SameHost(h, g)
  {
    DistinctGuestEntries(h.guests);
    DistinctGuestEntries(g.guests);
    SortedForgetsOrder(EntriesOfGuests(h.guests), EntriesOfGuests(g.guests), GuestKey);
    SameGuestsSameEntries(h.guests, g.guests);
  }

  lemma DistinctEntries(hosts: seq<Hypervisor>)
    requires DistinctHosts(hosts)
    ensures DistinctKeys(Entries(hosts), HostKey)
  {
  }

  /** With distinct ids, mappings have one canonical form exactly when they map the same hosts to the same guests. */
  lemma {:induction false} CanonicalSameIff(a: seq<Hypervisor>, b: seq<Hypervisor>)
    requires DistinctHosts(a) && DistinctHosts(b)
    ensures Canonical(a) == Canonical(b) <==> Within(a, b) && Within(b, a)
  {
    DistinctEntries(a);
    DistinctEntries(b);
    SortedSameIff(Entries(a), Entries(b), HostKey);
    if Canonical(a) == Canonical(b) {
      AgreeingEntriesWithin(a, b);
      AgreeingEntriesWithin(b, a);
    }
    if Within(a, b) && Within(b, a) {
      forall k: string ensures WithKey(Entries(a), HostKey, k) == WithKey(Entries(b), HostKey, k) {
        WithinAgrees(a, b, k);
      }
    }
  }

  lemma {:induction false} AgreeingEntriesWithin(a: seq<Hypervisor>, b: seq<Hypervisor>)
    requires DistinctHosts(a) && DistinctHosts(b) && AgreeOnKeys(Entries(a), Entries(b), HostKey)
    ensures Within(a, b)
  {
    forall h | h in a ensures exists g :: g in b && SameHost(h, g) {
      WithKeyOfHost(a, h);
      assert WithKey(Entries(b), HostKey, h.id) == [EntryOf(h)];
      InWithKey(Entries(b), HostKey, h.id, EntryOf(h));
      var j :| 0 <= j < |b| && Entries(b)[j] == EntryOf(h);
      EntrySameIff(h, b[j]);
    }
  }

  lemma {:induction false} InWithKey<T>(s: seq<T>, key: T -> string, k: string, x: T)
    requires x in WithKey(s, key, k)
    ensures x in s
  {
    if key(s[0]) != k || s[0] != x {
      InWithKey(s[1..], key, k, x);
    }
  }

  lemma {:induction false} WithinAgrees(a: seq<Hypervisor>, b: seq<Hypervisor>, k: string)
    requires DistinctHosts(a) && DistinctHosts(b) && Within(a, b) && Within(b, a)
    ensures WithKey(Entries(a), HostKey, k) == WithKey(Entries(b), HostKey, k)
  {
    if h :| h in a && h.id == k {
      OneHostAgrees(a, b, h);
    } else {
      forall e | e in Entries(a) || e in Entries(b) ensures HostKey(e) != k {
        NoHostNoEntry(a, e, k);
        NoHostNoEntry(b, e, k);
      }
      NoOtherWithKey(Entries(a), HostKey, k);
      NoOtherWithKey(Entries(b), HostKey, k);
    }
  }

  lemma {:induction false} OneHostAgrees(a: seq<Hypervisor>, b: seq<Hypervisor>, h: Hypervisor)
    requires DistinctHosts(a) && DistinctHosts(b) && Within(a, b) && h in a
    ensures WithKey(Entries(a), HostKey, h.id) == WithKey(Entries(b), HostKey, h.id) == [EntryOf(h)]
  {
    var g :| g in b && SameHost(h, g);
    EntrySameIff(h, g);
    WithKeyOfHost(a, h);
    WithKeyOfHost(b, g);
  }

  lemma {:induction false} WithKeyOfHost(hosts: seq<Hypervisor>, h: Hypervisor)
    requires DistinctHosts(hosts) && h in hosts
    ensures WithKey(Entries(hosts), HostKey, h.id) == [EntryOf(h)]
  {
    DistinctEntries(hosts);
    var i :| 0 <= i < |hosts| && hosts[i] == h;
    assert Entries(hosts)[i] == EntryOf(h);
    WithKeyOfDistinct(Entries(hosts), HostKey, EntryOf(h));
  }

  lemma NoHostNoEntry(hosts: seq<Hypervisor>, e: HostEntry, k: string)
    requires forall h :: h in hosts ==> h.id != k
    ensures e in Entries(hosts) ==> HostKey(e) != k
  {
  }

  // ----- filters -----

  /** A filter is given by the ids that its patterns match. */
  datatype Filters = Filters(excluded: Option<set<string>>, wanted: Option<set<string>>)

  predicate Passes(h: Hypervisor, filters: Filters) {
    && (filters.excluded.Some? ==> h.id !in filters.excluded.value)
    && (filters.wanted.Some? ==> h.id in filters.wanted.value)
  }

  function Filtered(hosts: seq<Hypervisor>, filters: Filters): (r: seq<Hypervisor>)
    ensures forall h :: h in r <==> h in hosts && Passes(h, filters)
  {
    if hosts == [] then [] else (if Passes(hosts[0], filters) then [hosts[0]] else []) + Filtered(hosts[1..], filters)
  }

  /** How many of the first i hosts are neither excluded nor unwanted. */
  function PassingBefore(hosts: seq<Hypervisor>, filters: Filters, i: nat): nat
    requires i <= |hosts|
  {
    if i == 0 then 0
    else
      var id := hosts[i - 1].id;
      PassingBefore(hosts, filters, i - 1)
      + if (filters.excluded.Some? && id in filters.excluded.value)
        || (filters.wanted.Some? && id !in filters.wanted.value)
        then 0 else 1
  }

  /** The hosts that are kept are those neither excluded nor unwanted, each once and in its place. */
  lemma {:induction false} FilteredInPlace(hosts: seq<Hypervisor>, filters: Filters, i: nat)
    requires i < |hosts|
    ensures |Filtered(hosts, filters)| == PassingBefore(hosts, filters, |hosts|)
    ensures var id := hosts[i].id;
            (filters.excluded.Some? ==> id !in filters.excluded.value)
              && (filters.wanted.Some? ==> id in filters.wanted.value) ==>
              var k := PassingBefore(hosts, filters, i);
              k < |Filtered(hosts, filters)| && Filtered(hosts, filters)[k] == hosts[i]
  {
    assert hosts[..|hosts|] == hosts;
    FilteredStart(hosts, filters, |hosts|, i);
  }

  lemma {:induction false} FilteredStart(hosts: seq<Hypervisor>, filters: Filters, n: nat, i: nat)
    requires i < n <= |hosts|
    ensures var kept := Filtered(hosts[..n], filters);
            && |kept| == PassingBefore(hosts, filters, n)
            && (Passes(hosts[i], filters) ==>
                  var k := PassingBefore(hosts, filters, i); k < |kept| && kept[k] == hosts[i])
    decreases n
  {
    assert hosts[..n] == hosts[..n - 1] + [hosts[n - 1]];
    FilteredMore(hosts[..n - 1], hosts[n - 1], filters);
    if n == 1 {
      assert hosts[..0] == [];
    } else {
      FilteredStart(hosts, filters, n - 1, if i == n - 1 then 0 else i);
    }
  }

  method Association(hosts: seq<Hypervisor>, filters: Filters) returns (kept: seq<Hypervisor>)
    ensures kept == Filtered(hosts, filters)
  {
    kept := [];
    var i := 0;
    while i < |hosts|
      invariant 0 <= i <= |hosts|
      invariant kept == Filtered(hosts[..i], filters)
    {
      var host := hosts[i];
      FilteredMore(hosts[..i], host, filters);
      assert hosts[..i + 1] == hosts[..i] + [host];
      i := i + 1;
      if filters.excluded.Some? && host.id in filters.excluded.value {
        continue;
      }
      if filters.wanted.Some? && host.id !in filters.wanted.value {
        continue;
      }
      kept := kept + [host];
    }
    assert hosts[..i] == hosts;
  }

  lemma {:induction false} FilteredMore(hosts: seq<Hypervisor>, h: Hypervisor, filters: Filters)
    ensures Filtered(hosts + [h], filters) == Filtered(hosts, filters) + (if Passes(h, filters) then [h] else [])
  {
    if hosts == [] {
      assert [] + [h] == [h] && Filtered([h][1..], filters) == [];
    } else {
      assert (hosts + [h])[1..] == hosts[1..] + [h];
      FilteredMore(hosts[1..], h, filters);
    }
  }

  lemma {:induction false} FilteredStaysDistinct(hosts: seq<Hypervisor>, filters: Filters)
    requires DistinctHosts(hosts)
    ensures DistinctHosts(Filtered(hosts, filters))
  {
    if hosts != [] {
      FilteredStaysDistinct(hosts[1..], filters);
      var rest := Filtered(hosts[1..], filters);
      forall h | h in rest ensures h.id != hosts[0].id {
        var i :| 1 <= i < |hosts| && hosts[i] == h;
      }
    }
  }

  /** A report's digest sees neither the order of its hosts nor that of their guests, whatever filters apply. */
  lemma {:induction false} ReorderedReportSameForm(a: seq<Hypervisor>, b: seq<Hypervisor>, filters: Filters)
    requires DistinctHosts(a) && DistinctHosts(b) && Within(a, b) && Within(b, a)
    ensures Canonical(Filtered(a, filters)) == Canonical(Filtered(b, filters))
  {
    FilteredStaysDistinct(a, filters);
    FilteredStaysDistinct(b, filters);
    FilteredStaysWithin(a, b, filters);
    FilteredStaysWithin(b, a, filters);
    CanonicalSameIff(Filtered(a, filters), Filtered(b, filters));
  }

  lemma {:induction false} FilteredStaysWithin(a: seq<Hypervisor>, b: seq<Hypervisor>, filters: Filters)
    requires Within(a, b)
    ensures Within(Filtered(a, filters), Filtered(b, filters))
  {
    forall h | h in Filtered(a, filters) ensures exists g :: g in Filtered(b, filters) && SameHost(h, g) {
      var g :| g in b && SameHost(h, g);
      assert g in Filtered(b, filters);
    }
  }
}
