/** The high-priority report (`high_priority` in _itr.py): the tickets of three
    filters are tagged with a priority class, pooled in a set, reduced to one
    priority per ticket in a dictionary, sorted by priority and rendered. */
module Priority {
  import opened Common
  import Tickets

  /** A priority class; a lower number is meant to be more urgent. */
  type Level = p: int | 0 <= p <= 2

  const UNASSIGNED: Level := 0
  const CLIENT_UPDATED: Level := 1
  const STALE: Level := 2

  /** A rendered ticket line paired with the class of the filter that returned it. */
  datatype Tagged = Tagged(ticket: string, level: Level)

  /** One `{'ticket_name': ..., 'priority': ...}` record of the report. */
  datatype ReportEntry = ReportEntry(ticketName: string, priority: string)

  /** `[(ticket, level) for ticket in tickets]`. */
  function Tag(tickets: seq<string>, level: Level): (r: seq<Tagged>)
    ensures |r| == |tickets|
    ensures forall i :: 0 <= i < |tickets| ==> r[i].ticket == tickets[i] && r[i].level == level
  {
    if tickets == [] then [] else [Tagged(tickets[0], level)] + Tag(tickets[1..], level)
  }

  // ---------------------------------------------------------------------------
  // Conflict resolution

  /** The comparison used when a ticket reaches the dictionary a second time.
      `KeepLarger` is the `>` the code uses; `KeepSmaller` keeps the most urgent class. */
  datatype Rule = KeepLarger | KeepSmaller

  /** Whether a newly seen priority overwrites the one already stored. */
  predicate Replaces(rule: Rule, incoming: Level, current: Level)
  {
    match rule
    case KeepLarger => incoming > current
    case KeepSmaller => incoming < current
  }

  ghost function TicketsOf(s: set<Tagged>): set<string>
  {
    set x | x in s :: x.ticket
  }

  /** `p` is a priority `t` was tagged with, and no other tag of `t` would replace it. */
  ghost predicate Resolved(rule: Rule, s: set<Tagged>, t: string, p: Level)
  {
    Tagged(t, p) in s && forall q: Level :: Tagged(t, q) in s ==> !Replaces(rule, q, p)
  }

  /** Under `KeepLarger` the surviving priority is the largest tag, under `KeepSmaller` the smallest. */
  lemma ResolvedIsExtreme(rule: Rule, s: set<Tagged>, t: string, p: Level)
    requires Resolved(rule, s, t, p)
    ensures forall x :: x in s && x.ticket == t ==>
              if rule == KeepLarger then x.level <= p else p <= x.level
  {
    forall x | x in s && x.ticket == t
      ensures if rule == KeepLarger then x.level <= p else p <= x.level
    {
      assert x == Tagged(t, x.level);
    }
  }

  /** A Python dict from ticket line to priority: its keys in insertion order and its contents. */
  datatype TicketDict = TicketDict(keys: seq<string>, values: map<string, Level>)

  ghost predicate DictValid(d: TicketDict)
  {
    && (forall i, j :: 0 <= i < j < |d.keys| ==> d.keys[i] != d.keys[j])
    && (forall t :: t in d.values <==> t in d.keys)
  }

  /** The loop of `high_priority` over `list(set(...))`. The set's iteration order
      is not fixed by Python, so each step takes any element not yet visited. */
  method Dedup(all: set<Tagged>, rule: Rule) returns (d: TicketDict)
    ensures DictValid(d)
    ensures d.values.Keys == TicketsOf(all)
    ensures forall t :: t in d.values ==> Resolved(rule, all, t, d.values[t])
  {
    d := TicketDict([], map[]);
    var rest := all;
    while rest != {}
      invariant rest <= all
      invariant DictValid(d)
      invariant d.values.Keys == TicketsOf(all - rest)
      invariant forall t :: t in d.values ==> Resolved(rule, all - rest, t, d.values[t])
      decreases rest
    {
      var x :| x in rest;
      AbsorbValid(rule, d, x);
      AbsorbTickets(rule, all - rest, d, x);
      AbsorbResolved(rule, all - rest, d, x);
      d := Absorb(rule, d, x);
      assert all - (rest - {x}) == (all - rest) + {x};
      rest := rest - {x};
    }
  }

  /** One pass of the loop body: a new ticket line is appended with its
      priority; a known one takes the incoming priority only when the rule
      says it replaces the stored one. */
  function Absorb(rule: Rule, d: TicketDict, x: Tagged): (d': TicketDict)
    ensures d'.values.Keys == d.values.Keys + {x.ticket}
  {
    if x.ticket in d.values then
      if Replaces(rule, x.level, d.values[x.ticket]) then d.(values := d.values[x.ticket := x.level]) else d
    else
      TicketDict(d.keys + [x.ticket], d.values[x.ticket := x.level])
  }

  /** A pass keeps the keys free of repeats and in step with the dictionary. */
  lemma AbsorbValid(rule: Rule, d: TicketDict, x: Tagged)
    requires DictValid(d)
    ensures DictValid(Absorb(rule, d, x))
  {
  }

  /** A pass keeps the dictionary's tickets those of the pairs seen so far. */
  lemma AbsorbTickets(rule: Rule, seen: set<Tagged>, d: TicketDict, x: Tagged)
    requires d.values.Keys == TicketsOf(seen)
    ensures Absorb(rule, d, x).values.Keys == TicketsOf(seen + {x})
  {
    assert TicketsOf(seen + {x}) == TicketsOf(seen) + {x.ticket};
  }

  /** A pass keeps each value the priority the rule leaves standing among the
      pairs seen so far. */
  lemma AbsorbResolved(rule: Rule, seen: set<Tagged>, d: TicketDict, x: Tagged)
    requires d.values.Keys == TicketsOf(seen)
    requires forall t :: t in d.values ==> Resolved(rule, seen, t, d.values[t])
    ensures forall t :: t in Absorb(rule, d, x).values ==>
              Resolved(rule, seen + {x}, t, Absorb(rule, d, x).values[t])
  {
    var d' := Absorb(rule, d, x);
    forall t | t in d'.values ensures Resolved(rule, seen + {x}, t, d'.values[t])
    {
      if t != x.ticket {
        assert d'.values[t] == d.values[t];
        forall q: Level | Tagged(t, q) in seen + {x} ensures Tagged(t, q) in seen { }
      }
    }
  }


  /** `ticket_no_dupes.items()`, in the dictionary's insertion order. */
  function Items(d: TicketDict): (r: seq<Tagged>)
    requires DictValid(d)
    ensures |r| == |d.keys|
    ensures forall i :: 0 <= i < |r| ==> r[i] == Tagged(d.keys[i], d.values[d.keys[i]])
  {
    seq(|d.keys|, i requires 0 <= i < |d.keys| => Tagged(d.keys[i], d.values[d.keys[i]]))
  }

  // ---------------------------------------------------------------------------
  // Sorting by priority

  /** `r` holds every entry of `xs` at priority `level` as many times as `xs`
      does, and no other entry. */
  ghost predicate CopiesAtLevel(r: seq<Tagged>, xs: seq<Tagged>, level: Level)
  {
    forall x :: multiset(r)[x] == (if x.level == level then multiset(xs)[x] else 0)
  }

  /** The entries of `xs` at priority `level`, in their order in `xs`. */
  function AtLevel(xs: seq<Tagged>, level: Level): (r: seq<Tagged>)
    ensures forall x :: x in r <==> x in xs && x.level == level
  {
    if xs == [] then []
    else if xs[0].level == level then [xs[0]] + AtLevel(xs[1..], level)
    else AtLevel(xs[1..], level)
  }

  /** Every entry of the priority is kept as many times as `xs` holds it. */
  lemma {:induction false} AtLevelCopies(xs: seq<Tagged>, level: Level)
    ensures CopiesAtLevel(AtLevel(xs, level), xs, level)
  {
    if xs != [] {
      AtLevelCopies(xs[1..], level);
      assert xs == [xs[0]] + xs[1..];
    }
  }

  /** The entries of one priority keep the order they have in `xs`. */
  lemma {:induction false} AtLevelInOrder(xs: seq<Tagged>, level: Level)
    ensures IsSubsequence(AtLevel(xs, level), xs)
  {
    if xs == [] {
    } else {
      AtLevelInOrder(xs[1..], level);
      assert xs == [xs[0]] + xs[1..];
      if xs[0].level == level {
        SubsequenceConsBoth(xs[0], AtLevel(xs[1..], level), xs[1..]);
      } else {
        SubsequenceSkipFirst(xs[0], AtLevel(xs[1..], level), xs[1..]);
      }
    }
  }

  lemma {:induction false} AtLevelAppend(a: seq<Tagged>, b: seq<Tagged>, level: Level)
    ensures AtLevel(a + b, level) == AtLevel(a, level) + AtLevel(b, level)
  {
    if a == [] {
      assert a + b == b;
    } else {
      assert (a + b)[1..] == a[1..] + b;
      AtLevelAppend(a[1..], b, level);
    }
  }

  lemma {:induction false} AtLevelOfAtLevel(xs: seq<Tagged>, level: Level, other: Level)
    ensures AtLevel(AtLevel(xs, level), other) == if level == other then AtLevel(xs, level) else []
  {
    if xs != [] {
      AtLevelOfAtLevel(xs[1..], level, other);
    }
  }

  /** `sorted` is stable: taken one priority at a time, the sorted list holds
      the entries of that priority in the order the items had them. */
  lemma SortByLevelStable(xs: seq<Tagged>, level: Level)
    ensures AtLevel(SortByLevel(xs), level) == AtLevel(xs, level)
  {
    var a, b, c := AtLevel(xs, 0), AtLevel(xs, 1), AtLevel(xs, 2);
    AtLevelAppend(a + b, c, level);
    AtLevelAppend(a, b, level);
    AtLevelOfAtLevel(xs, 0, level);
    AtLevelOfAtLevel(xs, 1, level);
    AtLevelOfAtLevel(xs, 2, level);
  }

  /** `sorted(items, key=lambda x: x[1])`. Python's sort is stable, so with the
      keys 0, 1 and 2 it yields the items of each key in their original order,
      key 0 first. */
  function SortByLevel(xs: seq<Tagged>): (r: seq<Tagged>)
    ensures |r| == |xs|
    ensures forall x :: x in r <==> x in xs
  {
    AtLevelSplit(xs);
    AtLevel(xs, 0) + AtLevel(xs, 1) + AtLevel(xs, 2)
  }

  ghost predicate SortedByLevel(xs: seq<Tagged>)
  {
    forall i, j :: 0 <= i < j < |xs| ==> xs[i].level <= xs[j].level
  }

  ghost predicate UniqueTickets(xs: seq<Tagged>)
  {
    forall i, j :: 0 <= i < j < |xs| ==> xs[i].ticket != xs[j].ticket
  }

  lemma {:induction false} AtLevelSplit(xs: seq<Tagged>)
    ensures |AtLevel(xs, 0)| + |AtLevel(xs, 1)| + |AtLevel(xs, 2)| == |xs|
    ensures multiset(AtLevel(xs, 0)) + multiset(AtLevel(xs, 1)) + multiset(AtLevel(xs, 2)) == multiset(xs)
  {
    if xs != [] {
      AtLevelSplit(xs[1..]);
      assert xs == [xs[0]] + xs[1..];
    }
  }

  lemma {:induction false} AtLevelUnique(xs: seq<Tagged>, level: Level)
    requires UniqueTickets(xs)
    ensures UniqueTickets(AtLevel(xs, level))
  {
    if xs != [] {
      AtLevelUnique(xs[1..], level);
      var rest := AtLevel(xs[1..], level);
      forall y | y in rest ensures y.ticket != xs[0].ticket
      {
        var j :| 0 <= j < |xs[1..]| && xs[1..][j] == y;
        assert xs[j + 1] == y;
      }
    }
  }

  /** The model of `sorted` reorders and nothing else: the result is sorted by
      priority and is a permutation of its input. */
  lemma SortByLevelCorrect(xs: seq<Tagged>)
    ensures SortedByLevel(SortByLevel(xs))
    ensures multiset(SortByLevel(xs)) == multiset(xs)
  {
    var a, b, c := AtLevel(xs, 0), AtLevel(xs, 1), AtLevel(xs, 2);
    var r := a + b + c;
    forall i, j | 0 <= i < j < |r| ensures r[i].level <= r[j].level
    {
      assert r[i] in a || r[i] in b || r[i] in c;
      assert r[j] in a || r[j] in b || r[j] in c;
      if i < |a| { assert r[i] in a; }
      else if i < |a| + |b| { assert r[i] == b[i - |a|]; assert j >= |a|; if j < |a| + |b| { assert r[j] == b[j - |a|]; } else { assert r[j] == c[j - |a| - |b|]; } }
      else { assert r[i] == c[i - |a| - |b|]; assert r[j] == c[j - |a| - |b|]; }
    }
    AtLevelSplit(xs);
  }

  /** Sorting keeps one entry per ticket when the dictionary had one. */
  lemma SortByLevelUnique(xs: seq<Tagged>)
    requires UniqueTickets(xs)
    ensures UniqueTickets(SortByLevel(xs))
  {
    var a, b, c := AtLevel(xs, 0), AtLevel(xs, 1), AtLevel(xs, 2);
    AtLevelUnique(xs, 0);
    AtLevelUnique(xs, 1);
    AtLevelUnique(xs, 2);
    var r := a + b + c;
    forall i, j | 0 <= i < j < |r| ensures r[i].ticket != r[j].ticket
    {
      if r[i].level != r[j].level {
        // both come from `xs`, and `xs` holds one entry per ticket
        assert r[i] in xs && r[j] in xs;
        var p :| 0 <= p < |xs| && xs[p] == r[i];
        var q :| 0 <= q < |xs| && xs[q] == r[j];
        assert p != q;
      } else if i < |a| {
        assert j < |a|;
      } else if i < |a| + |b| {
        assert r[i] == b[i - |a|] && r[j] == b[j - |a|];
      } else {
        assert r[i] == c[i - |a| - |b|] && r[j] == c[j - |a| - |b|];
      }
    }
  }

  // ---------------------------------------------------------------------------
  // Rendering

  /** `str(val)` for a priority class. */
  function LevelText(l: Level): (s: string)
    ensures |s| == 1 && '0' <= s[0] <= '2'
  {
    [(48 + l) as char]
  }

  /** Reading a rendered priority back. */
  function ParseLevel(s: string): Option<Level>
  {
    if s == "0" then Some(0) else if s == "1" then Some(1) else if s == "2" then Some(2) else None
  }

  lemma LevelTextRoundTrip(l: Level)
    ensures ParseLevel(LevelText(l)) == Some(l)
  {
  }

  /** One report entry: the ticket line and `str(val)`. */
  function Entry(x: Tagged): (e: ReportEntry)
    ensures e.ticketName == x.ticket && ParseLevel(e.priority) == Some(x.level)
  {
    ReportEntry(x.ticket, LevelText(x.level))
  }

  /** The priority a report entry carries, as a number (3 for text no class renders to). */
  function Rank(e: ReportEntry): int
  {
    match ParseLevel(e.priority)
    case Some(l) => l
    case None => 3
  }

  /** Every `priority` field is "0", "1" or "2". */
  ghost predicate PrioritiesWellFormed(r: seq<ReportEntry>)
  {
    forall i :: 0 <= i < |r| ==> r[i].priority in {"0", "1", "2"}
  }

  /** Entries appear in non-decreasing priority. */
  ghost predicate SortedByRank(r: seq<ReportEntry>)
  {
    forall i, j :: 0 <= i < j < |r| ==> Rank(r[i]) <= Rank(r[j])
  }

  /** No ticket line appears twice. */
  ghost predicate UniqueNames(r: seq<ReportEntry>)
  {
    forall i, j :: 0 <= i < j < |r| ==> r[i].ticketName != r[j].ticketName
  }

  /** The report names exactly the tagged ticket lines. */
  ghost predicate CoversTickets(all: set<Tagged>, r: seq<ReportEntry>)
  {
    forall t :: t in TicketsOf(all) <==> exists i :: 0 <= i < |r| && r[i].ticketName == t
  }

  /** Each entry carries the priority that `rule` resolves for its ticket line. */
  ghost predicate CarriesResolved(rule: Rule, all: set<Tagged>, r: seq<ReportEntry>)
  {
    forall i :: 0 <= i < |r| ==> 0 <= Rank(r[i]) <= 2 && Resolved(rule, all, r[i].ticketName, Rank(r[i]))
  }

  /** What a report built from the tagged set `all` promises. */
  ghost predicate IsReport(rule: Rule, all: set<Tagged>, r: seq<ReportEntry>)
  {
    && PrioritiesWellFormed(r)
    && SortedByRank(r)
    && UniqueNames(r)
    && CoversTickets(all, r)
    && CarriesResolved(rule, all, r)
  }

  /** The report rendered from the sorted dictionary items, entry by entry. */
  ghost predicate RenderedFrom(report: seq<ReportEntry>, items: seq<Tagged>)
  {
    |report| == |items| && forall i :: 0 <= i < |items| ==> report[i] == Entry(items[i])
  }

  lemma RenderedRanks(report: seq<ReportEntry>, items: seq<Tagged>)
    requires RenderedFrom(report, items)
    ensures forall i :: 0 <= i < |items| ==> Rank(report[i]) == items[i].level
  {
    forall i | 0 <= i < |items| ensures Rank(report[i]) == items[i].level
    {
      LevelTextRoundTrip(items[i].level);
    }
  }

  /** The dictionary items after the loop: one per ticket line, each with its
      resolved priority, and every tagged line among them. */
  ghost predicate MergedItems(rule: Rule, all: set<Tagged>, pairs: seq<Tagged>)
  {
    && UniqueTickets(pairs)
    && (forall i :: 0 <= i < |pairs| ==> Resolved(rule, all, pairs[i].ticket, pairs[i].level))
    && (forall t :: t in TicketsOf(all) ==> exists i :: 0 <= i < |pairs| && pairs[i].ticket == t)
  }

  lemma DictItems(rule: Rule, all: set<Tagged>, d: TicketDict)
    requires DictValid(d)
    requires d.values.Keys == TicketsOf(all)
    requires forall t :: t in d.values ==> Resolved(rule, all, t, d.values[t])
    ensures MergedItems(rule, all, Items(d))
  {
    var pairs := Items(d);
    forall t | t in TicketsOf(all) ensures exists i :: 0 <= i < |pairs| && pairs[i].ticket == t
    {
      assert t in d.keys;
      var p :| 0 <= p < |d.keys| && d.keys[p] == t;
      assert pairs[p].ticket == t;
    }
  }

  /** The entries rendered from the sorted dictionary items form a report. */
  lemma RenderedIsReport(rule: Rule, all: set<Tagged>, pairs: seq<Tagged>, report: seq<ReportEntry>)
    requires MergedItems(rule, all, pairs)
    requires RenderedFrom(report, SortByLevel(pairs))
    ensures IsReport(rule, all, report)
  {
    var items := SortByLevel(pairs);
    SortByLevelCorrect(pairs);
    SortByLevelUnique(pairs);
    RenderedRanks(report, items);
    assert PrioritiesWellFormed(report) by {
      forall i | 0 <= i < |report| ensures report[i].priority in {"0", "1", "2"}
      {
        assert report[i].priority == LevelText(items[i].level);
      }
    }
    assert SortedByRank(report);
    assert CarriesResolved(rule, all, report) by {
      forall i | 0 <= i < |items|
        ensures Resolved(rule, all, report[i].ticketName, Rank(report[i]))
      {
        assert items[i] in pairs;
      }
    }
    RenderedCovers(rule, all, pairs, report);
    RenderedUnique(report, items);
  }

  lemma RenderedCovers(rule: Rule, all: set<Tagged>, pairs: seq<Tagged>, report: seq<ReportEntry>)
    requires MergedItems(rule, all, pairs)
    requires RenderedFrom(report, SortByLevel(pairs))
    requires CarriesResolved(rule, all, report)
    ensures CoversTickets(all, report)
  {
    var items := SortByLevel(pairs);
    forall t | t in TicketsOf(all) ensures exists i :: 0 <= i < |report| && report[i].ticketName == t
    {
      var p :| 0 <= p < |pairs| && pairs[p].ticket == t;
      assert pairs[p] in items;
      var i :| 0 <= i < |items| && items[i] == pairs[p];
      assert report[i].ticketName == t;
    }
    forall i | 0 <= i < |report| ensures report[i].ticketName in TicketsOf(all)
    {
      assert Tagged(report[i].ticketName, Rank(report[i])) in all;
    }
  }

  lemma RenderedUnique(report: seq<ReportEntry>, items: seq<Tagged>)
    requires RenderedFrom(report, items)
    requires UniqueTickets(items)
    ensures UniqueNames(report)
  {
    forall i, j | 0 <= i < j < |report| ensures report[i].ticketName != report[j].ticketName
    {
      assert report[i].ticketName == items[i].ticket && report[j].ticketName == items[j].ticket;
    }
  }

  /** The dictionary built by the loop, as the list of its items. */
  method DedupItems(all: set<Tagged>, rule: Rule) returns (pairs: seq<Tagged>)
    ensures MergedItems(rule, all, pairs)
  {
    var d := Dedup(all, rule);
    pairs := Items(d);
    DictItems(rule, all, d);
  }

  /** Everything after the three fetches: merge, sort and render. */
  method Report(all: set<Tagged>, rule: Rule) returns (report: seq<ReportEntry>)
    ensures IsReport(rule, all, report)
  {
    var pairs := DedupItems(all, rule);
    var items := SortByLevel(pairs);
    report := [];
    for k := 0 to |items|
      invariant |report| == k
      invariant forall i :: 0 <= i < k ==> report[i] == Entry(items[i])
    {
      report := report + [Entry(items[k])];
    }
    RenderedIsReport(rule, all, pairs, report);
  }

  // ---------------------------------------------------------------------------
  // The whole operation

  /** The tagged set `set(unassigned + client_updated + stale)` for three successful fetches. */
  ghost function Candidates(unassigned: Tickets.Response, clientUpdated: Tickets.Response, stale: Tickets.Response): set<Tagged>
  {
    var pool := Tag(Tickets.RenderAll(unassigned.result), UNASSIGNED)
              + Tag(Tickets.RenderAll(clientUpdated.result), CLIENT_UPDATED)
              + Tag(Tickets.RenderAll(stale.result), STALE);
    set x | x in pool
  }

  method Merge(unassigned: Tickets.Response, clientUpdated: Tickets.Response, stale: Tickets.Response, rule: Rule)
    returns (r: Result<seq<ReportEntry>>)
    ensures r.Failure? <==> (unassigned.status != HTTP_OK || clientUpdated.status != HTTP_OK || stale.status != HTTP_OK)
    ensures r.Failure? ==> r.error == ConnectionError("Problem with get_tickets")
    ensures r.Success? ==> IsReport(rule, Candidates(unassigned, clientUpdated, stale), r.value)
  {
    var u := Tickets.GetTickets(unassigned);
    if u.Failure? { return Failure(u.error); }
    var c := Tickets.GetTickets(clientUpdated);
    if c.Failure? { return Failure(c.error); }
    var s := Tickets.GetTickets(stale);
    if s.Failure? { return Failure(s.error); }
    assert u.value == Tickets.RenderAll(unassigned.result);
    assert c.value == Tickets.RenderAll(clientUpdated.result);
    assert s.value == Tickets.RenderAll(stale.result);
    var pool := Tag(u.value, UNASSIGNED) + Tag(c.value, CLIENT_UPDATED) + Tag(s.value, STALE);
    var all := set x | x in pool;
    var report := Report(all, rule);
    return Success(report);
  }

  /** `high_priority` as written: any failed fetch aborts it; otherwise each
      ticket line gets the LARGEST priority it was tagged with. */
  method HighPriority(unassigned: Tickets.Response, clientUpdated: Tickets.Response, stale: Tickets.Response)
    returns (r: Result<seq<ReportEntry>>)
    ensures r.Failure? <==> (unassigned.status != HTTP_OK || clientUpdated.status != HTTP_OK || stale.status != HTTP_OK)
    ensures r.Failure? ==> r.error == ConnectionError("Problem with get_tickets")
    ensures r.Success? ==> IsReport(KeepLarger, Candidates(unassigned, clientUpdated, stale), r.value)
  {
    r := Merge(unassigned, clientUpdated, stale, KeepLarger);
  }

  /** `high_priority` with the comparison its comments describe: each ticket
      line gets the SMALLEST (most urgent) priority it was tagged with. */
  method HighPriorityMostUrgent(unassigned: Tickets.Response, clientUpdated: Tickets.Response, stale: Tickets.Response)
    returns (r: Result<seq<ReportEntry>>)
    ensures r.Failure? <==> (unassigned.status != HTTP_OK || clientUpdated.status != HTTP_OK || stale.status != HTTP_OK)
    ensures r.Failure? ==> r.error == ConnectionError("Problem with get_tickets")
    ensures r.Success? ==> IsReport(KeepSmaller, Candidates(unassigned, clientUpdated, stale), r.value)
  {
    r := Merge(unassigned, clientUpdated, stale, KeepSmaller);
  }

  // ---------------------------------------------------------------------------
  // What every report guarantees

  lemma ResolvedUnique(rule: Rule, s: set<Tagged>, t: string, p: Level, q: Level)
    requires Resolved(rule, s, t, p) && Resolved(rule, s, t, q)
    ensures p == q
  {
    assert !Replaces(rule, q, p) && !Replaces(rule, p, q);
  }

  /** The report as written: each ticket line carries the largest priority
      among the filters that returned it. */
  lemma HighPriorityKeepsLargest(all: set<Tagged>, r: seq<ReportEntry>)
    requires IsReport(KeepLarger, all, r)
    ensures forall i, x :: 0 <= i < |r| && x in all && x.ticket == r[i].ticketName ==> x.level <= Rank(r[i])
  {
    forall i, x | 0 <= i < |r| && x in all && x.ticket == r[i].ticketName
      ensures x.level <= Rank(r[i])
    {
      ResolvedIsExtreme(KeepLarger, all, r[i].ticketName, Rank(r[i]));
    }
  }

  /** Two reports for the same tagged set hold the same entries, and as many:
      the set's iteration order only changes the order among equal priorities. */
  lemma ReportIndependentOfOrder(rule: Rule, all: set<Tagged>, r1: seq<ReportEntry>, r2: seq<ReportEntry>)
    requires IsReport(rule, all, r1) && IsReport(rule, all, r2)
    ensures forall e :: e in r1 <==> e in r2
    ensures |r1| == |r2|
  {
    forall e | e in r1 ensures e in r2
    {
      ReportEntryDetermined(rule, all, r1, r2, e);
    }
    forall e | e in r2 ensures e in r1
    {
      ReportEntryDetermined(rule, all, r2, r1, e);
    }
    assert NoDuplicates(r1) by {
      forall i, j | 0 <= i < j < |r1| ensures r1[i] != r1[j] { }
    }
    assert NoDuplicates(r2) by {
      forall i, j | 0 <= i < j < |r2| ensures r2[i] != r2[j] { }
    }
    SameElementsSameLength(r1, r2);
  }

  lemma ReportEntryDetermined(rule: Rule, all: set<Tagged>, r1: seq<ReportEntry>, r2: seq<ReportEntry>, e: ReportEntry)
    requires IsReport(rule, all, r1) && IsReport(rule, all, r2)
    requires e in r1
    ensures e in r2
  {
    var i :| 0 <= i < |r1| && r1[i] == e;
    assert CoversTickets(all, r1) && CoversTickets(all, r2);
    assert e.ticketName in TicketsOf(all);
    var j :| 0 <= j < |r2| && r2[j].ticketName == e.ticketName;
    ResolvedUnique(rule, all, e.ticketName, Rank(e), Rank(r2[j]));
    assert r1[i].priority in {"0", "1", "2"} && r2[j].priority in {"0", "1", "2"};
    assert r2[j] == e;
  }

  // ---------------------------------------------------------------------------
  // One ticket returned by two filters

  const ScenarioUnassigned := Tickets.Response(200, [Tickets.RawTicket("INC1", "Printer jam", "s1", "c1")])
  const ScenarioClientUpdated := Tickets.Response(200, [Tickets.RawTicket("INC1", "Printer jam", "s1", "c1"),
                                                       Tickets.RawTicket("INC2", "No wifi", "s2", "c2")])
  const ScenarioStale := Tickets.Response(200, [])

  lemma ScenarioCandidates()
    ensures forall x :: x in Candidates(ScenarioUnassigned, ScenarioClientUpdated, ScenarioStale) <==>
              x in [Tagged("INC1 Printer jam", 0), Tagged("INC1 Printer jam", 1), Tagged("INC2 No wifi", 1)]
    ensures forall t :: t in TicketsOf(Candidates(ScenarioUnassigned, ScenarioClientUpdated, ScenarioStale)) <==>
              t == "INC1 Printer jam" || t == "INC2 No wifi"
  {
    var t1 := Tickets.RawTicket("INC1", "Printer jam", "s1", "c1");
    var t2 := Tickets.RawTicket("INC2", "No wifi", "s2", "c2");
    assert Tickets.Render(t1) == "INC1 Printer jam";
    assert Tickets.Render(t2) == "INC2 No wifi";
    var pool := Tag(Tickets.RenderAll(ScenarioUnassigned.result), UNASSIGNED)
              + Tag(Tickets.RenderAll(ScenarioClientUpdated.result), CLIENT_UPDATED)
              + Tag(Tickets.RenderAll(ScenarioStale.result), STALE);
    assert pool == [Tagged("INC1 Printer jam", 0), Tagged("INC1 Printer jam", 1), Tagged("INC2 No wifi", 1)];
    var all := Candidates(ScenarioUnassigned, ScenarioClientUpdated, ScenarioStale);
    assert forall x :: x in all <==> x in pool;
    assert Tagged("INC1 Printer jam", 0) in all;
    assert Tagged("INC2 No wifi", 1) in all;
  }

  /** As written: the ticket that is both unassigned (0) and client-updated (1)
      is reported at priority "1", the less urgent class. */
  lemma HighPriorityDemotesUnassigned(r: seq<ReportEntry>)
    requires IsReport(KeepLarger, Candidates(ScenarioUnassigned, ScenarioClientUpdated, ScenarioStale), r)
    ensures exists i :: 0 <= i < |r| && r[i] == ReportEntry("INC1 Printer jam", "1")
    ensures forall i :: 0 <= i < |r| ==> r[i].priority == "1"
  {
    ScenarioCandidates();
    ScenarioReportAsWritten(Candidates(ScenarioUnassigned, ScenarioClientUpdated, ScenarioStale), r);
  }

  /** The scenario's tagged set, given by its elements. */
  ghost predicate IsScenarioSet(all: set<Tagged>)
  {
    forall x :: x in all <==> x in [Tagged("INC1 Printer jam", 0), Tagged("INC1 Printer jam", 1), Tagged("INC2 No wifi", 1)]
  }

  lemma ScenarioReportAsWritten(all: set<Tagged>, r: seq<ReportEntry>)
    requires IsScenarioSet(all)
    requires IsReport(KeepLarger, all, r)
    ensures exists i :: 0 <= i < |r| && r[i] == ReportEntry("INC1 Printer jam", "1")
    ensures forall i :: 0 <= i < |r| ==> r[i].priority == "1"
  {
    assert "INC1 Printer jam" in TicketsOf(all) by {
      assert Tagged("INC1 Printer jam", 0) in all;
    }
    forall i | 0 <= i < |r| ensures Rank(r[i]) == 1
    {
      assert Resolved(KeepLarger, all, r[i].ticketName, Rank(r[i]));
      if r[i].ticketName == "INC1 Printer jam" {
        assert Tagged("INC1 Printer jam", 1) in all;
      }
    }
  }

  lemma ReportNamesTagged(rule: Rule, all: set<Tagged>, r: seq<ReportEntry>, k: int)
    requires IsReport(rule, all, r)
    requires 0 <= k < |r|
    ensures r[k].ticketName in TicketsOf(all)
  {
    assert CarriesResolved(rule, all, r);
    assert Tagged(r[k].ticketName, Rank(r[k])) in all;
  }

  /** A report over exactly two ticket lines whose resolved priorities differ
      lists the more urgent one first. */
  lemma TwoTicketReport(rule: Rule, all: set<Tagged>, r: seq<ReportEntry>, t1: string, t2: string, p1: Level, p2: Level)
    requires IsReport(rule, all, r)
    requires forall t :: t in TicketsOf(all) <==> t == t1 || t == t2
    requires t1 != t2
    requires Resolved(rule, all, t1, p1) && Resolved(rule, all, t2, p2) && p1 < p2
    ensures r == [ReportEntry(t1, LevelText(p1)), ReportEntry(t2, LevelText(p2))]
  {
    assert CoversTickets(all, r) && UniqueNames(r) && SortedByRank(r) && PrioritiesWellFormed(r);
    assert t1 in TicketsOf(all) && t2 in TicketsOf(all);
    var i1 :| 0 <= i1 < |r| && r[i1].ticketName == t1;
    var i2 :| 0 <= i2 < |r| && r[i2].ticketName == t2;
    ResolvedUnique(rule, all, t1, p1, Rank(r[i1]));
    ResolvedUnique(rule, all, t2, p2, Rank(r[i2]));
    assert i1 < i2;
    forall k | 0 <= k < |r| ensures r[k].ticketName == t1 || r[k].ticketName == t2
    {
      ReportNamesTagged(rule, all, r, k);
    }
    var names := seq(|r|, i requires 0 <= i < |r| => r[i].ticketName);
    assert NoDuplicates(names);
    SubsetNoLonger(names, [t1, t2]);
    LevelTextRoundTrip(p1);
    LevelTextRoundTrip(p2);
    assert r[0].priority == LevelText(p1) && r[1].priority == LevelText(p2);
  }

  /** With the intended comparison the same inputs give the report
      INC1 at "0" followed by INC2 at "1". */
  lemma MostUrgentKeepsUnassigned(r: seq<ReportEntry>)
    requires IsReport(KeepSmaller, Candidates(ScenarioUnassigned, ScenarioClientUpdated, ScenarioStale), r)
    ensures r == [ReportEntry("INC1 Printer jam", "0"), ReportEntry("INC2 No wifi", "1")]
  {
    ScenarioCandidates();
    ScenarioReportIntended(Candidates(ScenarioUnassigned, ScenarioClientUpdated, ScenarioStale), r);
  }

  lemma ScenarioReportIntended(all: set<Tagged>, r: seq<ReportEntry>)
    requires IsScenarioSet(all)
    requires IsReport(KeepSmaller, all, r)
    ensures r == [ReportEntry("INC1 Printer jam", "0"), ReportEntry("INC2 No wifi", "1")]
  {
    var t1, t2 := "INC1 Printer jam", "INC2 No wifi";
    assert forall t :: t in TicketsOf(all) <==> t == t1 || t == t2 by {
      assert Tagged(t1, 0) in all && Tagged(t2, 1) in all;
    }
    assert Resolved(KeepSmaller, all, t1, 0) by {
      assert Tagged(t1, 0) in all;
    }
    assert Resolved(KeepSmaller, all, t2, 1) by {
      assert Tagged(t2, 1) in all;
    }
    TwoTicketReport(KeepSmaller, all, r, t1, t2, 0, 1);
  }
}
