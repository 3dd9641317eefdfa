/** Today's calendar events (_calendar.py): counting house calls and reducing
    each event to the five fields the dashboard shows. Signing in and fetching
    the events are not modelled; the events are given. */
module Calendar {
  import opened Common

  /** A field of an event as decoded from JSON: text such as `summary`, or an
      object such as `start` and `end` (`{'dateTime': ..., 'timeZone': ...}`). */
  datatype Value = Text(text: string) | Object(fields: map<string, string>)

  /** One event: a JSON object. */
  type Event = map<string, Value>

  // ---------------------------------------------------------------------------
  // housecall_status

  /** A summary names a house call when, lower-cased, it holds both "house" and "call". */
  predicate IsHousecall(summary: string)
  {
    var name := Lower(summary);
    Contains(name, "house") && Contains(name, "call")
  }

  /** `event['summary']` as a string: a KeyError when the key is missing and an
      AttributeError when the value is not text and so has no `lower` method. */
  function Summary(e: Event): (r: Result<string>)
    ensures r.Success? <==> "summary" in e && e["summary"].Text?
    ensures r.Success? ==> r.value == e["summary"].text
    ensures "summary" !in e ==> r == Failure(KeyError("summary"))
    ensures "summary" in e && !e["summary"].Text? ==> r == Failure(AttributeError("lower"))
  {
    if "summary" !in e then Failure(KeyError("summary"))
    else match e["summary"]
      case Text(s) => Success(s)
      case Object(_) => Failure(AttributeError("lower"))
  }

  predicate HousecallEvent(e: Event)
  {
    Summary(e).Success? && IsHousecall(Summary(e).value)
  }

  /** The number of house-call events. */
  function CountHousecalls(events: seq<Event>): (n: nat)
    ensures n <= |events|
  {
    if events == [] then 0
    else CountHousecalls(events[..|events| - 1]) + (if HousecallEvent(events[|events| - 1]) then 1 else 0)
  }

  /** Some event's summary fails with `err`, and every event before it has a text summary. */
  predicate FailsFirstAt(events: seq<Event>, err: Error)
  {
    exists i :: 0 <= i < |events| && Summary(events[i]) == Failure(err)
                && forall j :: 0 <= j < i ==> Summary(events[j]).Success?
  }

  /** The exception the loop stops at: that of the first event without a text summary. */
  function FirstSummaryError(events: seq<Event>): (err: Option<Error>)
    ensures err.None? <==> forall i :: 0 <= i < |events| ==> Summary(events[i]).Success?
    ensures err.Some? ==> FailsFirstAt(events, err.value)
  {
    if events == [] then None
    else match Summary(events[0])
      case Failure(e) => Some(e)
      case Success(_) =>
        var rest := FirstSummaryError(events[1..]);
        assert forall i :: 1 <= i < |events| ==> events[i] == events[1..][i - 1];
        if rest.Some? then
          var k :| 0 <= k < |events[1..]| && Summary(events[1..][k]) == Failure(rest.value)
                   && forall j :: 0 <= j < k ==> Summary(events[1..][j]).Success?;
          assert Summary(events[k + 1]) == Failure(rest.value);
          rest
        else rest
  }

  /** `housecall_status`: no events (None or empty) gives 0; an event without a
      text summary aborts with that event's exception; otherwise the number of
      summaries holding both "house" and "call" in any letter case. */
  method HousecallStatus(events: Option<seq<Event>>) returns (r: Result<nat>)
    ensures events.None? ==> r == Success(0)
    ensures events.Some? ==> (r.Failure? <==> FirstSummaryError(events.value).Some?)
    ensures events.Some? && r.Failure? ==> r.error == FirstSummaryError(events.value).value
    ensures events.Some? && r.Success? ==> r.value == CountHousecalls(events.value)
  {
    if events.None? || events.value == [] {
      return Success(0);
    }
    var evs := events.value;
    var count := 0;
    for k := 0 to |evs|
      invariant count == CountHousecalls(evs[..k])
      invariant FirstSummaryError(evs) == FirstSummaryError(evs[k..])
    {
      assert evs[..k + 1][..k] == evs[..k];
      assert evs[k..][1..] == evs[k + 1..];
      var name := Summary(evs[k]);
      if name.Failure? {
        return Failure(name.error);
      }
      if IsHousecall(name.value) {
        count := count + 1;
      }
    }
    assert evs[..|evs|] == evs;
    return Success(count);
  }

  // ---------------------------------------------------------------------------
  // Properties of the count

  lemma {:induction false} CountAppend(a: seq<Event>, b: seq<Event>)
    ensures CountHousecalls(a + b) == CountHousecalls(a) + CountHousecalls(b)
    decreases |b|
  {
    if b != [] {
      var init := b[..|b| - 1];
      assert (a + b)[..|a + b| - 1] == a + init;
      CountAppend(a, init);
    } else {
      assert a + b == a;
    }
  }

  /** Two strings that differ only in letter case. */
  predicate SameUpToCase(s: string, t: string)
  {
    |s| == |t| && forall i :: 0 <= i < |s| ==> LowerChar(s[i]) == LowerChar(t[i])
  }

  /** Letter case never decides whether a summary is a house call. */
  lemma HousecallIgnoresCase(s: string, t: string)
    requires SameUpToCase(s, t)
    ensures IsHousecall(s) == IsHousecall(t)
  {
    assert Lower(s) == Lower(t);
  }

  /** Rewriting one summary in another letter case leaves the count unchanged. */
  lemma CountIgnoresCase(events: seq<Event>, i: nat, t: string)
    requires i < |events|
    requires Summary(events[i]).Success? && SameUpToCase(Summary(events[i]).value, t)
    ensures CountHousecalls(events[i := events[i]["summary" := Text(t)]]) == CountHousecalls(events)
  {
    var e' := events[i]["summary" := Text(t)];
    var changed := events[i := e'];
    HousecallIgnoresCase(Summary(events[i]).value, t);
    assert HousecallEvent(e') == HousecallEvent(events[i]);
    assert events == events[..i] + [events[i]] + events[i + 1..];
    assert changed == events[..i] + [e'] + events[i + 1..];
    CountAppend(events[..i] + [events[i]], events[i + 1..]);
    CountAppend(events[..i], [events[i]]);
    CountAppend(events[..i] + [e'], events[i + 1..]);
    CountAppend(events[..i], [e']);
    assert CountHousecalls([e']) == CountHousecalls([events[i]]) by {
      assert [e'][..0] == [] && [events[i]][..0] == [];
    }
  }

  /** A word already in lower case is found in the lower-cased text around it. */
  lemma LowerKeepsWord(x: string, w: string, y: string)
    requires Lower(w) == w
    ensures Contains(Lower(x + w + y), w)
  {
    LowerAppend(x, w);
    LowerAppend(x + w, y);
    ContainsInfix(Lower(x), w, Lower(y));
  }

  lemma WordsAreLowerCase()
    ensures Lower("house") == "house"
    ensures Lower("call") == "call"
  {
  }

  /** "house" and "call" are found wherever they stand and in either order. */
  lemma HousecallAnywhere(a: string, b: string, c: string)
    ensures IsHousecall(a + "house" + b + "call" + c)
    ensures IsHousecall(a + "call" + b + "house" + c)
  {
    WordsAreLowerCase();
    assert a + "house" + b + "call" + c == a + "house" + (b + "call" + c);
    LowerKeepsWord(a, "house", b + "call" + c);
    LowerKeepsWord(a + "house" + b, "call", c);
    assert a + "call" + b + "house" + c == a + "call" + (b + "house" + c);
    LowerKeepsWord(a, "call", b + "house" + c);
    LowerKeepsWord(a + "call" + b, "house", c);
  }

  /** Events whose summaries all lack one of the two words count for nothing. */
  lemma {:induction false} MissingWordNotCounted(events: seq<Event>, word: string)
    requires word == "house" || word == "call"
    requires forall i :: 0 <= i < |events| && Summary(events[i]).Success? ==>
               !Contains(Lower(Summary(events[i]).value), word)
    ensures CountHousecalls(events) == 0
  {
    if events != [] {
      MissingWordNotCounted(events[..|events| - 1], word);
    }
  }

  // ---------------------------------------------------------------------------
  // The projection in calendar_auth_json

  /** The fields kept from each event, in the order they are copied. */
  const PARAMS: seq<string> := ["id", "created", "summary", "start", "end"]

  /** `key` stands in `keys` after only keys the event has. */
  predicate MissingFirst(e: Event, keys: seq<string>, key: string)
  {
    exists j :: 0 <= j < |keys| && keys[j] == key && forall k :: 0 <= k < j ==> keys[k] in e
  }

  /** The first of `keys` the event lacks: the KeyError the copy loop raises. */
  function FirstMissing(e: Event, keys: seq<string>): (m: Option<string>)
    ensures m.None? <==> forall k :: k in keys ==> k in e
    ensures m.Some? ==> m.value in keys && m.value !in e
  {
    if keys == [] then None
    else if keys[0] !in e then Some(keys[0])
    else FirstMissing(e, keys[1..])
  }

  /** The key `FirstMissing` reports comes after only keys the event has. */
  lemma {:induction false} FirstMissingIsFirst(e: Event, keys: seq<string>)
    ensures FirstMissing(e, keys).Some? ==> MissingFirst(e, keys, FirstMissing(e, keys).value)
  {
    if keys != [] && keys[0] in e {
      var rest := FirstMissing(e, keys[1..]);
      FirstMissingIsFirst(e, keys[1..]);
      if rest.Some? {
        var j :| 0 <= j < |keys[1..]| && keys[1..][j] == rest.value && forall k :: 0 <= k < j ==> keys[1..][k] in e;
        assert keys[j + 1] == rest.value;
        assert forall k :: 1 <= k < j + 1 ==> keys[k] == keys[1..][k - 1];
      }
    } else if keys != [] {
      assert keys[0] == FirstMissing(e, keys).value;
    }
  }

  /** The converse of `MissingFirst`: a missing key preceded only by present
      keys is the one `FirstMissing` reports. */
  lemma {:induction false} FirstMissingAt(e: Event, keys: seq<string>, j: nat)
    requires j < |keys| && keys[j] !in e
    requires forall k :: 0 <= k < j ==> keys[k] in e
    ensures FirstMissing(e, keys) == Some(keys[j])
    decreases j
  {
    if j > 0 {
      assert keys[0] in e;
      assert keys[1..][j - 1] == keys[j];
      FirstMissingAt(e, keys[1..], j - 1);
    }
  }

  /** `reduced` is `e` cut down to the kept fields: exactly those keys, each
      with the value it has in `e`. */
  predicate ReducedFrom(e: Event, reduced: Event)
  {
    reduced.Keys == (set p | p in PARAMS) && forall p :: p in PARAMS ==> p in e && reduced[p] == e[p]
  }

  /** The inner loop: `new_event[param] = event[param]` for each kept field. */
  method ProjectEvent(e: Event) returns (r: Result<Event>)
    ensures r.Failure? <==> FirstMissing(e, PARAMS).Some?
    ensures r.Failure? ==> r.error == KeyError(FirstMissing(e, PARAMS).value)
    ensures r.Failure? ==> r.error.KeyError? && MissingFirst(e, PARAMS, r.error.key)
    ensures r.Success? ==> ReducedFrom(e, r.value)
  {
    var newEvent: Event := map[];
    for j := 0 to |PARAMS|
      invariant newEvent.Keys == set p | p in PARAMS[..j]
      invariant forall p :: p in PARAMS[..j] ==> p in e && newEvent[p] == e[p]
    {
      var param := PARAMS[j];
      assert PARAMS[..j + 1] == PARAMS[..j] + [param];
      if param !in e {
        FirstMissingAt(e, PARAMS, j);
        FirstMissingIsFirst(e, PARAMS);
        return Failure(KeyError(param));
      }
      newEvent := newEvent[param := e[param]];
    }
    assert PARAMS[..|PARAMS|] == PARAMS;
    return Success(newEvent);
  }

  /** The index of the first event that lacks a kept field, if any. */
  function FirstIncomplete(events: seq<Event>): (i: Option<nat>)
    ensures i.None? <==> forall k :: 0 <= k < |events| ==> FirstMissing(events[k], PARAMS).None?
    ensures i.Some? ==> i.value < |events| && FirstMissing(events[i.value], PARAMS).Some?
    ensures i.Some? ==> forall k :: 0 <= k < i.value ==> FirstMissing(events[k], PARAMS).None?
  {
    if events == [] then None
    else if FirstMissing(events[0], PARAMS).Some? then Some(0)
    else
      match FirstIncomplete(events[1..])
      case None => None
      case Some(k) => Some(k + 1)
  }

  /** An incomplete event preceded only by complete ones is the one `FirstIncomplete` finds. */
  lemma {:induction false} FirstIncompleteAt(events: seq<Event>, k: nat)
    requires k < |events| && FirstMissing(events[k], PARAMS).Some?
    requires forall i :: 0 <= i < k ==> FirstMissing(events[i], PARAMS).None?
    ensures FirstIncomplete(events) == Some(k)
    decreases k
  {
    if k > 0 {
      assert events[1..][k - 1] == events[k];
      assert forall i :: 0 <= i < k - 1 ==> events[1..][i] == events[i + 1];
      FirstIncompleteAt(events[1..], k - 1);
    }
  }

  /** The outer loop of `calendar_auth_json`: one reduced event per event, in
      order; the first event lacking a kept field aborts with its KeyError. */
  method ProjectEvents(events: seq<Event>) returns (r: Result<seq<Event>>)
    ensures r.Failure? <==> FirstIncomplete(events).Some?
    ensures r.Failure? ==> r.error == KeyError(FirstMissing(events[FirstIncomplete(events).value], PARAMS).value)
    ensures r.Success? ==> |r.value| == |events|
    ensures r.Success? ==> forall i :: 0 <= i < |events| ==> ReducedFrom(events[i], r.value[i])
  {
    var edited: seq<Event> := [];
    for k := 0 to |events|
      invariant |edited| == k
      invariant forall i :: 0 <= i < k ==> FirstMissing(events[i], PARAMS).None?
      invariant forall i :: 0 <= i < k ==> ReducedFrom(events[i], edited[i])
    {
      var projected := ProjectEvent(events[k]);
      if projected.Failure? {
        FirstIncompleteAt(events, k);
        return Failure(projected.error);
      }
      ghost var before := edited;
      edited := edited + [projected.value];
      assert forall i :: 0 <= i < k ==> edited[i] == before[i];
    }
    return Success(edited);
  }
}
