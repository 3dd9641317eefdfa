/** The "needs response" view (`get_tickets_in_progress` and
    `get_journal_entries` in _itr.py): a ticket is kept when it has no comment
    yet or when its newest comment was written by the client who opened it. */
module Journal {
  import opened Common
  import Tickets

  /** A journal entry; `createdOn` stands for the parsed `sys_created_on` time. */
  datatype JournalEntry = JournalEntry(element: string, createdOn: int, createdBy: string)

  /** The journal type of client-visible comments (`work_notes` are the other type). */
  const COMMENTS: string := "comments"

  /** `r` holds every entry of `notes` of type `journalType` as many times as
      `notes` does, and no other entry. */
  ghost predicate CopiesOfType(r: seq<JournalEntry>, notes: seq<JournalEntry>, journalType: string)
  {
    forall e :: multiset(r)[e] == (if e.element == journalType then multiset(notes)[e] else 0)
  }

  /** `get_journal_entries`: the entries whose `element` is `journalType`. */
  function EntriesOfType(notes: seq<JournalEntry>, journalType: string): (r: seq<JournalEntry>)
    ensures |r| <= |notes|
    ensures forall e :: e in r <==> e in notes && e.element == journalType
    ensures CopiesOfType(r, notes, journalType)
  {
    if notes == [] then []
    else
      var init := notes[..|notes| - 1];
      var last := notes[|notes| - 1];
      assert notes == init + [last];
      EntriesOfType(init, journalType) + (if last.element == journalType then [last] else [])
  }

  /** The kept entries stay in their original order. */
  lemma {:induction false} EntriesOfTypeInOrder(notes: seq<JournalEntry>, journalType: string)
    ensures IsSubsequence(EntriesOfType(notes, journalType), notes)
  {
    if notes != [] {
      var init := notes[..|notes| - 1];
      var r := EntriesOfType(notes, journalType);
      EntriesOfTypeInOrder(init, journalType);
      if notes[|notes| - 1].element == journalType {
        assert r[..|r| - 1] == EntriesOfType(init, journalType);
      } else {
        assert r == EntriesOfType(init, journalType);
        SubsequenceOfInit(r, notes);
      }
    }
  }

  lemma SubsequenceOfInit<T>(sub: seq<T>, s: seq<T>)
    requires s != [] && IsSubsequence(sub, s[..|s| - 1])
    ensures IsSubsequence(sub, s)
  {
  }

  // ---------------------------------------------------------------------------
  // The newest comment

  /** Inserts `e` into a newest-first list ahead of every entry that is not newer than it. */
  function InsertNewestFirst(e: JournalEntry, xs: seq<JournalEntry>): (r: seq<JournalEntry>)
    ensures |r| == |xs| + 1
    ensures multiset(r) == multiset(xs) + multiset{e}
  {
    if xs == [] || xs[0].createdOn <= e.createdOn then [e] + xs
    else
      assert xs == [xs[0]] + xs[1..];
      [xs[0]] + InsertNewestFirst(e, xs[1..])
  }

  /** `sorted(entries, key=lambda entry: entry['sys_created_on'], reverse=True)`:
      a stable sort, newest first, in which entries with equal times keep their order. */
  function SortNewestFirst(s: seq<JournalEntry>): (r: seq<JournalEntry>)
    ensures |r| == |s|
    ensures multiset(r) == multiset(s)
  {
    if s == [] then []
    else
      assert s == [s[0]] + s[1..];
      InsertNewestFirst(s[0], SortNewestFirst(s[1..]))
  }

  ghost predicate NewestFirst(xs: seq<JournalEntry>)
  {
    forall i, j :: 0 <= i < j < |xs| ==> xs[i].createdOn >= xs[j].createdOn
  }

  lemma {:induction false} InsertKeepsOrder(e: JournalEntry, xs: seq<JournalEntry>)
    requires NewestFirst(xs)
    ensures NewestFirst(InsertNewestFirst(e, xs))
  {
    if xs != [] && xs[0].createdOn > e.createdOn {
      InsertKeepsOrder(e, xs[1..]);
      var rest := InsertNewestFirst(e, xs[1..]);
      var r := InsertNewestFirst(e, xs);
      assert r == [xs[0]] + rest;
      InsertBounded(e, xs[1..], xs[0].createdOn);
      forall i, j | 0 <= i < j < |r| ensures r[i].createdOn >= r[j].createdOn
      {
        if i != 0 {
          assert r[i] == rest[i - 1] && r[j] == rest[j - 1];
        }
      }
    }
  }

  /** Inserting keeps every entry at or before a time that bounds them all. */
  lemma {:induction false} InsertBounded(e: JournalEntry, xs: seq<JournalEntry>, bound: int)
    requires e.createdOn <= bound
    requires forall i :: 0 <= i < |xs| ==> xs[i].createdOn <= bound
    ensures forall i :: 0 <= i < |xs| + 1 ==> InsertNewestFirst(e, xs)[i].createdOn <= bound
  {
    if xs != [] && xs[0].createdOn > e.createdOn {
      InsertBounded(e, xs[1..], bound);
      var rest := InsertNewestFirst(e, xs[1..]);
      assert InsertNewestFirst(e, xs) == [xs[0]] + rest;
      assert forall i :: 1 <= i < |xs| + 1 ==> InsertNewestFirst(e, xs)[i] == rest[i - 1];
    }
  }

  /** The sort's result is ordered newest first. */
  lemma {:induction false} SortNewestFirstOrdered(s: seq<JournalEntry>)
    ensures NewestFirst(SortNewestFirst(s))
  {
    if s != [] {
      SortNewestFirstOrdered(s[1..]);
      InsertKeepsOrder(s[0], SortNewestFirst(s[1..]));
    }
  }

  /** The position of the entry a stable newest-first sort puts first: the first
      entry, in input order, among those with the latest time. */
  function NewestIndex(entries: seq<JournalEntry>): (i: nat)
    requires entries != []
    ensures i < |entries|
    ensures forall j :: 0 <= j < |entries| ==> entries[j].createdOn <= entries[i].createdOn
    ensures forall j :: 0 <= j < i ==> entries[j].createdOn < entries[i].createdOn
  {
    if |entries| == 1 then 0
    else
      var k := NewestIndex(entries[1..]) + 1;
      if entries[0].createdOn >= entries[k].createdOn then 0 else k
  }

  /** `recent[0]` is the entry NewestIndex picks. */
  lemma {:induction false} SortNewestFirstHead(s: seq<JournalEntry>)
    requires s != []
    ensures SortNewestFirst(s)[0] == s[NewestIndex(s)]
  {
    if |s| > 1 {
      SortNewestFirstHead(s[1..]);
    }
  }

  // ---------------------------------------------------------------------------
  // The client and the decision

  /** The caller record a client lookup returns. */
  datatype ClientRecord = ClientRecord(userName: string)

  /** What the request for `caller_id.link` returned; `result` is None when its
      JSON had no 'result' key. */
  datatype ClientResponse = ClientResponse(status: int, result: Option<ClientRecord>)

  /** `get_client_info` followed by `client['user_name']`: the client's user name,
      or None when the request failed or returned no record. */
  function ClientName(resp: ClientResponse): (name: Option<string>)
    ensures name.Some? <==> resp.status == HTTP_OK && resp.result.Some?
    ensures name.Some? ==> name.value == resp.result.value.userName
  {
    if resp.status != HTTP_OK then None
    else match resp.result
      case None => None
      case Some(record) => Some(record.userName)
  }

  /** The test in `get_tickets_in_progress`: no comment at all, or the newest
      comment's author equals the client (never when the client is None). */
  predicate NeedsResponse(comments: seq<JournalEntry>, client: Option<string>)
  {
    var recent := SortNewestFirst(comments);
    recent == [] || Some(recent[0].createdBy) == client
  }

  /** The decision stated without the sort: a ticket needs a response iff it has
      no comment, or the first of its latest comments is by the resolved client. */
  lemma NeedsResponseIff(comments: seq<JournalEntry>, client: Option<string>)
    ensures NeedsResponse(comments, client) <==>
              comments == [] || (client.Some? && comments[NewestIndex(comments)].createdBy == client.value)
  {
    if comments != [] {
      SortNewestFirstHead(comments);
    }
  }

  /** A ticket whose client could not be resolved is kept only while it has no comment. */
  lemma UnresolvedClientOnlyNewTickets(comments: seq<JournalEntry>)
    ensures NeedsResponse(comments, None) <==> comments == []
  {
    NeedsResponseIff(comments, None);
  }

  /** A newer staff comment settles the ticket: a client comment followed by a
      later one from someone else does not need a response. */
  lemma StaffRepliedLast(client: string, staff: string, t1: int, t2: int)
    requires staff != client && t1 < t2
    ensures !NeedsResponse([JournalEntry(COMMENTS, t1, client), JournalEntry(COMMENTS, t2, staff)], Some(client))
  {
    var c := [JournalEntry(COMMENTS, t1, client), JournalEntry(COMMENTS, t2, staff)];
    NeedsResponseIff(c, Some(client));
  }

  /** When two comments share the latest time the earlier-listed one decides. */
  lemma TieGoesToFirstListed(client: string, staff: string, t: int)
    requires staff != client
    ensures NeedsResponse([JournalEntry(COMMENTS, t, client), JournalEntry(COMMENTS, t, staff)], Some(client))
    ensures !NeedsResponse([JournalEntry(COMMENTS, t, staff), JournalEntry(COMMENTS, t, client)], Some(client))
  {
    NeedsResponseIff([JournalEntry(COMMENTS, t, client), JournalEntry(COMMENTS, t, staff)], Some(client));
    NeedsResponseIff([JournalEntry(COMMENTS, t, staff), JournalEntry(COMMENTS, t, client)], Some(client));
  }

  // ---------------------------------------------------------------------------
  // The whole view

  /** Whether one ticket of the 'all' filter stays in the view, given the journal
      entries stored for each `sys_id` and the client lookup for each caller link. */
  predicate Kept(t: Tickets.RawTicket, journals: string -> seq<JournalEntry>, clients: string -> ClientResponse)
  {
    NeedsResponse(EntriesOfType(journals(t.sysId), COMMENTS), ClientName(clients(t.callerLink)))
  }

  /** The tickets the loop appends to `in_progress`, in order. */
  function InProgress(ts: seq<Tickets.RawTicket>, journals: string -> seq<JournalEntry>,
                      clients: string -> ClientResponse): seq<Tickets.RawTicket>
  {
    if ts == [] then []
    else
      var last := ts[|ts| - 1];
      InProgress(ts[..|ts| - 1], journals, clients) + (if Kept(last, journals, clients) then [last] else [])
  }

  /** The view holds exactly the kept tickets of the filter's result. */
  lemma {:induction false} InProgressMembers(ts: seq<Tickets.RawTicket>, journals: string -> seq<JournalEntry>,
                                             clients: string -> ClientResponse)
    ensures forall t :: t in InProgress(ts, journals, clients) <==> t in ts && Kept(t, journals, clients)
  {
    if ts != [] {
      var init := ts[..|ts| - 1];
      InProgressMembers(init, journals, clients);
      assert ts == init + [ts[|ts| - 1]];
    }
  }

  /** The view lists the kept tickets in the order the filter returned them. */
  lemma {:induction false} InProgressInOrder(ts: seq<Tickets.RawTicket>, journals: string -> seq<JournalEntry>,
                                             clients: string -> ClientResponse)
    ensures IsSubsequence(InProgress(ts, journals, clients), ts)
  {
    if ts != [] {
      var init := ts[..|ts| - 1];
      var r := InProgress(ts, journals, clients);
      InProgressInOrder(init, journals, clients);
      if Kept(ts[|ts| - 1], journals, clients) {
        assert r[..|r| - 1] == InProgress(init, journals, clients);
      } else {
        assert r == InProgress(init, journals, clients);
        SubsequenceOfInit(r, ts);
      }
    }
  }

  lemma InProgressStep(ts: seq<Tickets.RawTicket>, k: nat, journals: string -> seq<JournalEntry>,
                       clients: string -> ClientResponse)
    requires k < |ts|
    ensures InProgress(ts[..k + 1], journals, clients)
            == InProgress(ts[..k], journals, clients) + (if Kept(ts[k], journals, clients) then [ts[k]] else [])
  {
    assert ts[..k + 1][..k] == ts[..k];
  }

  /** The first loop of `get_tickets_in_progress`: fetch each ticket's comments
      and client, and append the ticket when it needs a response. */
  method SelectNeedingResponse(tickets: seq<Tickets.RawTicket>, journals: string -> seq<JournalEntry>,
                               clients: string -> ClientResponse)
    returns (inProgress: seq<Tickets.RawTicket>)
    ensures inProgress == InProgress(tickets, journals, clients)
  {
    inProgress := [];
    for k := 0 to |tickets|
      invariant inProgress == InProgress(tickets[..k], journals, clients)
    {
      var ticket := tickets[k];
      var entries := EntriesOfType(journals(ticket.sysId), COMMENTS);
      var client := ClientName(clients(ticket.callerLink));
      var recent := SortNewestFirst(entries);
      InProgressStep(tickets, k, journals, clients);
      if recent == [] {
        inProgress := inProgress + [ticket];
      } else if Some(recent[0].createdBy) == client {
        inProgress := inProgress + [ticket];
      }
    }
    assert tickets[..|tickets|] == tickets;
  }

  /** `get_tickets_in_progress`: fails when the 'all' fetch fails; otherwise the
      rendered lines of the kept tickets. */
  method GetTicketsInProgress(all: Tickets.Response, journals: string -> seq<JournalEntry>,
                              clients: string -> ClientResponse)
    returns (r: Result<seq<string>>)
    ensures r.Failure? <==> all.status != HTTP_OK
    ensures r.Failure? ==> r.error == ConnectionError("Problem with get_tickets_raw")
    ensures r.Success? ==> r.value == Tickets.RenderAll(InProgress(all.result, journals, clients))
  {
    var fetched := Tickets.GetTicketsRaw(all);
    if fetched.Failure? {
      return Failure(fetched.error);
    }
    var inProgress := SelectNeedingResponse(fetched.value, journals, clients);
    var text := Tickets.RenderLines(inProgress);
    return Success(text);
  }
}
