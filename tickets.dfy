/** Fetching tickets from the ticket store (`get_tickets`, `get_tickets_raw` in
    _itr.py). The HTTP request itself is not modelled: a fetch is given as the
    response it produced, a status code and the decoded `result` list. */
module Tickets {
  import opened Common

  /** The fields of an incident record that the dashboard reads. */
  datatype RawTicket = RawTicket(
    number: string,            // e.g. "INC0012345"
    shortDescription: string,  // the ticket's title
    sysId: string,             // internal id, used to look up journal entries
    callerLink: string)        // `caller_id.link`, used to look up the client

  /** What one `requests.get` on the incident table returned. */
  datatype Response = Response(status: int, result: seq<RawTicket>)

  /** The one-line text a ticket is shown as: its number, a space, its title. */
  function Render(t: RawTicket): string
  {
    t.number + " " + t.shortDescription
  }

  function RenderAll(ts: seq<RawTicket>): (r: seq<string>)
    ensures |r| == |ts|
    ensures forall i :: 0 <= i < |ts| ==> r[i] == Render(ts[i])
  {
    if ts == [] then [] else [Render(ts[0])] + RenderAll(ts[1..])
  }

  /** The ticket number at the head of a rendered line: everything before its first space. */
  function NumberOf(line: string): (n: string)
    ensures n <= line
    ensures ' ' !in n
    ensures |n| == |line| || line[|n|] == ' '
  {
    if line == [] || line[0] == ' ' then [] else [line[0]] + NumberOf(line[1..])
  }

  /** A rendered line gives back the ticket's number whenever the number holds
      no space, as incident numbers never do. */
  lemma {:induction false} NumberOfRender(t: RawTicket)
    requires ' ' !in t.number
    ensures NumberOf(Render(t)) == t.number
  {
    assert Render(t) == t.number + (" " + t.shortDescription);
    NumberOfPrefix(t.number, " " + t.shortDescription);
  }

  lemma {:induction false} NumberOfPrefix(n: string, rest: string)
    requires ' ' !in n
    requires rest != [] && rest[0] == ' '
    ensures NumberOf(n + rest) == n
  {
    if n != [] {
      assert (n + rest)[1..] == n[1..] + rest;
      NumberOfPrefix(n[1..], rest);
    } else {
      assert n + rest == rest;
    }
  }

  /** `get_tickets`: fails with a ConnectionError unless the status is 200;
      otherwise renders each record, one line per record, in upstream order. */
  method GetTickets(resp: Response) returns (r: Result<seq<string>>)
    ensures r.Failure? <==> resp.status != HTTP_OK
    ensures r.Failure? ==> r.error == ConnectionError("Problem with get_tickets")
    ensures r.Success? ==> |r.value| == |resp.result|
    ensures r.Success? ==> forall i :: 0 <= i < |resp.result| ==> r.value[i] == Render(resp.result[i])
  {
    if resp.status != HTTP_OK {
      return Failure(ConnectionError("Problem with get_tickets"));
    }
    var tickets := RenderLines(resp.result);
    return Success(tickets);
  }

  /** The loop `get_tickets` and `get_tickets_in_progress` share: append the
      rendered line of each ticket, in order. */
  method RenderLines(ts: seq<RawTicket>) returns (lines: seq<string>)
    ensures lines == RenderAll(ts)
  {
    lines := [];
    var k := 0;
    while k < |ts|
      invariant 0 <= k <= |ts|
      invariant |lines| == k
      invariant forall i :: 0 <= i < k ==> lines[i] == Render(ts[i])
    {
      lines := lines + [Render(ts[k])];
      k := k + 1;
    }
  }

  /** `get_tickets_raw`: the same status check, then the records unchanged. */
  function GetTicketsRaw(resp: Response): (r: Result<seq<RawTicket>>)
    ensures r.Failure? <==> resp.status != HTTP_OK
    ensures r.Failure? ==> r.error == ConnectionError("Problem with get_tickets_raw")
    ensures r.Success? ==> r.value == resp.result
  {
    if resp.status != HTTP_OK then Failure(ConnectionError("Problem with get_tickets_raw"))
    else Success(resp.result)
  }
}
