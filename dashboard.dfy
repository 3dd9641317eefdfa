/** The `/_loop` endpoint of app.py: the staff on shift reduced to first names
    and avatars, and the task sheet padded to a fixed width and reduced to the
    task column. Fetching the shifts and the sheet (When I Work, Google Sheets,
    pickles) and the Flask response are not modelled; their data are given. */
module Dashboard {
  import opened Common

  // ---------------------------------------------------------------------------
  // Python's argument-less str.split

  /** `s` without its leading whitespace. */
  function DropSpace(s: string): (r: string)
    ensures |r| <= |s| && r == s[|s| - |r|..]
    ensures forall i :: 0 <= i < |s| - |r| ==> IsSpace(s[i])
    ensures r == [] || !IsSpace(r[0])
  {
    if s != [] && IsSpace(s[0]) then DropSpace(s[1..]) else s
  }

  /** The longest prefix of `s` holding no whitespace. */
  function TakeWord(s: string): (w: string)
    ensures w <= s
    ensures forall i :: 0 <= i < |w| ==> !IsSpace(w[i])
    ensures |w| < |s| ==> IsSpace(s[|w|])
    ensures s != [] && !IsSpace(s[0]) ==> w != []
  {
    if s == [] || IsSpace(s[0]) then [] else [s[0]] + TakeWord(s[1..])
  }

  /** A word as `split` returns it: non-empty and free of whitespace. */
  predicate IsWord(w: string)
  {
    w != [] && forall i :: 0 <= i < |w| ==> !IsSpace(w[i])
  }

  /** `s.split()`: the maximal runs of non-whitespace characters, in order. */
  function Split(s: string): (words: seq<string>)
    ensures forall i :: 0 <= i < |words| ==> IsWord(words[i])
    decreases |s|
  {
    var t := DropSpace(s);
    if t == [] then []
    else
      var w := TakeWord(t);
      assert IsWord(w);
      var rest := Split(t[|w|..]);
      [w] + rest
  }

  /** The words joined with one space between each two: `' '.join(words)`. */
  function Join(words: seq<string>): string
  {
    if words == [] then ""
    else if |words| == 1 then words[0]
    else words[0] + (" " + Join(words[1..]))
  }

  /** Leading whitespace never changes the words. */
  lemma {:induction false} SplitSkipsLeadingSpace(lead: string, s: string)
    requires forall i :: 0 <= i < |lead| ==> IsSpace(lead[i])
    ensures Split(lead + s) == Split(s)
  {
    DropSpaceAfterSpace(lead, s);
  }

  lemma {:induction false} DropSpaceAfterSpace(lead: string, s: string)
    requires forall i :: 0 <= i < |lead| ==> IsSpace(lead[i])
    ensures DropSpace(lead + s) == DropSpace(s)
    decreases |lead|
  {
    if lead != [] {
      assert (lead + s)[0] == lead[0];
      assert (lead + s)[1..] == lead[1..] + s;
      DropSpaceAfterSpace(lead[1..], s);
    } else {
      assert lead + s == s;
    }
  }

  lemma {:induction false} TakeWordOf(w: string, rest: string)
    requires forall i :: 0 <= i < |w| ==> !IsSpace(w[i])
    requires rest == [] || IsSpace(rest[0])
    ensures TakeWord(w + rest) == w
    decreases |w|
  {
    if w != [] {
      assert (w + rest)[0] == w[0];
      assert (w + rest)[1..] == w[1..] + rest;
      TakeWordOf(w[1..], rest);
    } else {
      assert w + rest == rest;
    }
  }

  /** `split` finds no word exactly when the text is all whitespace. */
  lemma SplitEmpty(s: string)
    ensures Split(s) == [] <==> forall i :: 0 <= i < |s| ==> IsSpace(s[i])
  {
    var t := DropSpace(s);
    if t != [] {
      assert s[|s| - |t|] == t[0];
    }
  }

  /** A word at the head of the text, ended by whitespace or by the end, is the first word split finds. */
  lemma {:induction false} SplitWordThen(w: string, tail: string)
    requires IsWord(w)
    requires tail == [] || IsSpace(tail[0])
    ensures Split(w + tail) == [w] + Split(tail)
  {
    assert (w + tail)[0] == w[0];
    assert DropSpace(w + tail) == w + tail;
    TakeWordOf(w, tail);
    assert (w + tail)[|w|..] == tail;
  }

  /** Splitting undoes joining: words joined with single spaces split back
      into the same words. */
  lemma {:induction false} SplitJoin(words: seq<string>)
    requires forall i :: 0 <= i < |words| ==> IsWord(words[i])
    ensures Split(Join(words)) == words
  {
    if words == [] {
      assert Split("") == [];
    } else if |words| == 1 {
      SplitOneWord(words[0]);
      assert words == [words[0]];
    } else {
      SplitJoin(words[1..]);
      SplitWordSpace(words[0], " " + Join(words[1..]));
      assert (" " + Join(words[1..]))[1..] == Join(words[1..]);
      HeadTail(words);
    }
  }

  lemma {:induction false} SplitOneWord(w: string)
    requires IsWord(w)
    ensures Split(w) == [w]
  {
    SplitWordThen(w, "");
    assert w + "" == w;
    assert Split("") == [];
  }

  /** A word followed by whitespace: the word, then the words of what follows the whitespace character. */
  lemma {:induction false} SplitWordSpace(w: string, tail: string)
    requires IsWord(w) && tail != [] && IsSpace(tail[0])
    ensures Split(w + tail) == [w] + Split(tail[1..])
  {
    calc {
      Split(w + tail);
      { SplitWordThen(w, tail); }
      [w] + Split(tail);
      { assert tail[..1] + tail[1..] == tail;
        SplitSkipsLeadingSpace(tail[..1], tail[1..]); }
      [w] + Split(tail[1..]);
    }
  }

  lemma HeadTail<T>(s: seq<T>)
    requires s != []
    ensures [s[0]] + s[1..] == s
  {
  }

  // ---------------------------------------------------------------------------
  // The wiw projection

  /** A user record from When I Work: the fields the dashboard reads. */
  datatype User = User(first: string, avatar: string)

  /** `{'name': ..., 'avatar': ...}`, one per staff member on shift. */
  datatype StaffEntry = StaffEntry(name: string, avatar: string)

  /** `w` is the first word of `s`, starting after `lead` characters of whitespace. */
  predicate FirstWordAt(s: string, w: string, lead: nat)
  {
    IsWord(w) && lead + |w| <= |s|
    && (forall i :: 0 <= i < lead ==> IsSpace(s[i]))
    && s[lead..lead + |w|] == w
    && (lead + |w| == |s| || IsSpace(s[lead + |w|]))
  }

  /** `first.split()[0]`, computed as the word after the leading whitespace;
      `FirstNameIsSplitHead` proves it is the head of `Split(first)`. */
  function FirstName(first: string): Result<string>
  {
    var t := DropSpace(first);
    if t == [] then Failure(IndexError) else Success(TakeWord(t))
  }

  /** `FirstName` is `split()[0]`: an IndexError when `split` finds no word,
      its first word otherwise. */
  lemma FirstNameIsSplitHead(first: string)
    ensures Split(first) == [] ==> FirstName(first) == Failure(IndexError)
    ensures Split(first) != [] ==> FirstName(first) == Success(Split(first)[0])
  {
  }

  /** `FirstName` raises an IndexError exactly when the name holds only whitespace. */
  lemma FirstNameBlank(first: string)
    ensures FirstName(first).Failure? <==> forall i :: 0 <= i < |first| ==> IsSpace(first[i])
    ensures FirstName(first).Failure? ==> FirstName(first).error == IndexError
  {
    var t := DropSpace(first);
    if t != [] {
      assert first[|first| - |t|] == t[0];
    }
  }

  /** What `FirstName` finds is a first word: it follows the leading
      whitespace and runs up to the next whitespace or the end. */
  lemma {:induction false} FirstNameIsFirstWord(first: string)
    requires FirstName(first).Success?
    ensures FirstWordAt(first, FirstName(first).value, |first| - |DropSpace(first)|)
  {
    var t := DropSpace(first);
    var w := TakeWord(t);
    assert FirstName(first) == Success(w);
    assert IsWord(w);
    WordOfSuffix(first, t, w);
  }

  /** A word at the head of a suffix `t` of `s`, where everything before `t`
      is whitespace and the word is ended by whitespace or the end of `t`,
      is the first word of `s`. */
  lemma WordOfSuffix(s: string, t: string, w: string)
    requires |t| <= |s| && t == s[|s| - |t|..]
    requires forall i :: 0 <= i < |s| - |t| ==> IsSpace(s[i])
    requires IsWord(w) && w <= t
    requires |w| == |t| || IsSpace(t[|w|])
    ensures FirstWordAt(s, w, |s| - |t|)
  {
    var lead := |s| - |t|;
    assert s[lead..lead + |w|] == t[..|w|] == w;
    if |w| < |t| {
      assert s[lead + |w|] == t[|w|];
    }
  }

  /** There is only one first word: any word standing after leading whitespace
      and ended by whitespace or the end of the text is the one `FirstName` gives. */
  lemma {:induction false} FirstWordUnique(s: string, w: string, lead: nat)
    requires FirstWordAt(s, w, lead)
    ensures FirstName(s) == Success(w)
  {
    var from := s[lead..];
    var rest := s[lead + |w|..];
    assert from == w + rest;
    assert DropSpace(s) == from by {
      assert s == s[..lead] + from;
      DropSpaceAfterSpace(s[..lead], from);
      assert !IsSpace(from[0]) by { assert from[0] == w[0]; }
    }
    TakeWordOf(w, rest);
  }

  /** One user's entry: `{'name': user.first.split()[0], 'avatar': user.avatar}`. */
  function Entry(u: User): Result<StaffEntry>
  {
    var name := FirstName(u.first);
    if name.Failure? then Failure(name.error) else Success(StaffEntry(name.value, u.avatar))
  }

  /** `entry` is what the list holds for `u`. */
  predicate EntryIs(u: User, entry: StaffEntry)
  {
    Entry(u) == Success(entry)
  }

  /** The staff list: one entry per user, in order, named by the user's first
      word; the first user whose name is blank aborts with an IndexError. */
  function WiwEntries(users: seq<User>): (r: Result<seq<StaffEntry>>)
    ensures r.Failure? ==> r.error == IndexError
    ensures r.Success? ==> |r.value| == |users|
    ensures r.Success? ==> forall i :: 0 <= i < |users| ==> EntryIs(users[i], r.value[i])
  {
    if users == [] then Success([])
    else
      var init := users[..|users| - 1];
      var rest := WiwEntries(init);
      var last := Entry(users[|users| - 1]);
      if rest.Failure? then rest
      else if last.Failure? then Failure(IndexError)
      else
        PointwiseSnoc(users, rest.value, last.value, EntryIs);
        Success(rest.value + [last.value])
  }

  /** A relation that holds pointwise between `xs` without its last element and
      `ys`, and between the two last elements, holds pointwise after appending. */
  lemma PointwiseSnoc<A, B>(xs: seq<A>, ys: seq<B>, y: B, rel: (A, B) -> bool)
    requires xs != [] && |ys| == |xs| - 1
    requires forall i :: 0 <= i < |ys| ==> rel(xs[..|xs| - 1][i], ys[i])
    requires rel(xs[|xs| - 1], y)
    ensures forall i :: 0 <= i < |xs| ==> rel(xs[i], (ys + [y])[i])
  {
    forall i | 0 <= i < |xs|
      ensures rel(xs[i], (ys + [y])[i])
    {
      if i < |ys| {
        assert xs[..|xs| - 1][i] == xs[i];
      }
    }
  }

  /** The staff list is built exactly when every user's name holds a word. */
  lemma {:induction false} WiwEntriesFails(users: seq<User>)
    ensures WiwEntries(users).Failure? <==> exists i :: 0 <= i < |users| && FirstName(users[i].first).Failure?
  {
    if users != [] {
      WiwEntriesFails(users[..|users| - 1]);
    }
  }

  /** A user whose name is written as words joined by single spaces appears
      under the first of those words. */
  lemma WiwUsesFirstWord(users: seq<User>, names: seq<seq<string>>)
    requires |names| == |users|
    requires forall i :: 0 <= i < |users| ==> names[i] != [] && users[i].first == Join(names[i])
    requires forall i, j :: 0 <= i < |users| && 0 <= j < |names[i]| ==> IsWord(names[i][j])
    ensures WiwEntries(users).Success?
    ensures forall i :: 0 <= i < |users| ==> WiwEntries(users).value[i] == StaffEntry(names[i][0], users[i].avatar)
  {
    forall i | 0 <= i < |users|
      ensures FirstName(users[i].first) == Success(names[i][0])
    {
      SplitJoin(names[i]);
    }
    WiwEntriesFails(users);
  }

  // ---------------------------------------------------------------------------
  // The sheets projection

  /** Every row of the sheet is padded to this many cells. */
  const ROW_WIDTH: nat := 9

  /** `n` empty cells. */
  function Blanks(n: nat): (cells: seq<string>)
    ensures |cells| == n
    ensures forall i :: 0 <= i < n ==> cells[i] == ""
  {
    seq(n, _ => "")
  }

  /** A row after the padding loop: unchanged when already `ROW_WIDTH` long
      or longer, otherwise extended with empty cells to exactly `ROW_WIDTH`. */
  function Padded(row: seq<string>): (p: seq<string>)
    ensures |p| == if |row| < ROW_WIDTH then ROW_WIDTH else |row|
    ensures p[..|row|] == row
    ensures forall i :: |row| <= i < |p| ==> p[i] == ""
  {
    if |row| < ROW_WIDTH then row + Blanks(ROW_WIDTH - |row|) else row
  }

  /** The whole sheet after the padding loop. */
  function PadAll(rows: seq<seq<string>>): (p: seq<seq<string>>)
    ensures |p| == |rows|
    ensures forall i :: 0 <= i < |rows| ==> p[i] == Padded(rows[i])
  {
    seq(|rows|, i requires 0 <= i < |rows| => Padded(rows[i]))
  }

  /** The padding loop of `loop()`: each row list grows in place, one empty cell
      at a time, until it has `ROW_WIDTH` cells. */
  method PadRows(rows: array<seq<string>>)
    modifies rows
    ensures rows[..] == PadAll(old(rows[..]))
  {
    for i := 0 to rows.Length
      invariant forall j :: 0 <= j < i ==> rows[j] == Padded(old(rows[j]))
      invariant forall j :: i <= j < rows.Length ==> rows[j] == old(rows[j])
    {
      while |rows[i]| < ROW_WIDTH
        invariant |old(rows[i])| < ROW_WIDTH ==> |rows[i]| <= ROW_WIDTH
        invariant |old(rows[i])| >= ROW_WIDTH ==> rows[i] == old(rows[i])
        invariant rows[i] == old(rows[i]) + Blanks(|rows[i]| - |old(rows[i])|)
        invariant forall j :: 0 <= j < rows.Length && j != i ==> rows[j] == if j < i then Padded(old(rows[j])) else old(rows[j])
        decreases ROW_WIDTH - |rows[i]|
      {
        rows[i] := rows[i] + [""];
      }
    }
  }

  /** Padding a second time changes nothing. */
  lemma PadAllIdempotent(rows: seq<seq<string>>)
    ensures PadAll(PadAll(rows)) == PadAll(rows)
  {
    forall i | 0 <= i < |rows|
      ensures Padded(Padded(rows[i])) == Padded(rows[i])
    {
      var p := Padded(rows[i]);
      assert |p| >= ROW_WIDTH;
    }
  }

  /** The task column: `row[0]` of every row after the header, in order; a
      row without cells aborts with an IndexError. */
  function Tasks(body: seq<seq<string>>): (r: Result<seq<string>>)
    ensures r.Failure? <==> exists i :: 0 <= i < |body| && body[i] == []
    ensures r.Failure? ==> r.error == IndexError
    ensures r.Success? ==> |r.value| == |body|
    ensures r.Success? ==> forall i :: 0 <= i < |body| ==> r.value[i] == body[i][0]
  {
    if body == [] then Success([])
    else
      var rest := Tasks(body[1..]);
      assert forall i :: 1 <= i < |body| ==> body[i] == body[1..][i - 1];
      if body[0] == [] then Failure(IndexError)
      else if rest.Failure? then rest
      else Success([body[0][0]] + rest.value)
  }

  /** `[{'task': row[0]} for row in data_sheets[1:]]`: the header row is
      skipped, and an empty sheet has no rows after its header either. */
  function SheetTasks(rows: seq<seq<string>>): (r: Result<seq<string>>)
    ensures |rows| <= 1 ==> r == Success([])
  {
    Tasks(if rows == [] then [] else rows[1..])
  }

  /** After padding, the task column is always defined: one task per row after
      the header, the row's first cell, or "" for a row that had none. */
  lemma TasksAfterPadding(rows: seq<seq<string>>)
    ensures SheetTasks(PadAll(rows)).Success?
    ensures |SheetTasks(PadAll(rows)).value| == if rows == [] then 0 else |rows| - 1
    ensures forall i :: 1 <= i < |rows| ==>
              SheetTasks(PadAll(rows)).value[i - 1] == if rows[i] == [] then "" else rows[i][0]
  {
    var padded := PadAll(rows);
    if rows != [] {
      forall i | 1 <= i < |rows|
        ensures padded[1..][i - 1] == padded[i] && padded[i] != []
        ensures padded[i][0] == if rows[i] == [] then "" else rows[i][0]
      {
        var row := rows[i];
        if row != [] {
          assert padded[i][..|row|] == row;
          assert padded[i][0] == padded[i][..|row|][0];
        }
      }
    }
  }

  // ---------------------------------------------------------------------------
  // The loop endpoint

  /** The JSON object `/_loop` answers with. */
  datatype Payload = Payload(wiwRcc: seq<StaffEntry>, wiwStevenson: seq<StaffEntry>, sheets: seq<string>)

  /** `loop()`: the two staff lists, then the sheet padded in place and its
      task column. A blank name aborts before the sheet is touched; once the
      staff lists are built nothing else can fail. */
  method Loop(rcc: seq<User>, stevenson: seq<User>, sheet: array<seq<string>>) returns (r: Result<Payload>)
    modifies sheet
    ensures r.Failure? <==> WiwEntries(rcc).Failure? || WiwEntries(stevenson).Failure?
    ensures r.Failure? ==> r.error == IndexError && sheet[..] == old(sheet[..])
    ensures r.Success? ==> sheet[..] == PadAll(old(sheet[..]))
    ensures r.Success? ==> WiwEntries(rcc) == Success(r.value.wiwRcc)
    ensures r.Success? ==> WiwEntries(stevenson) == Success(r.value.wiwStevenson)
    ensures r.Success? ==> SheetTasks(PadAll(old(sheet[..]))) == Success(r.value.sheets)
  {
    var wiwRcc := WiwEntries(rcc);
    if wiwRcc.Failure? {
      return Failure(wiwRcc.error);
    }
    var wiwStevenson := WiwEntries(stevenson);
    if wiwStevenson.Failure? {
      return Failure(wiwStevenson.error);
    }
    PadRows(sheet);
    TasksAfterPadding(old(sheet[..]));
    var tasks := SheetTasks(sheet[..]);
    return Success(Payload(wiwRcc.value, wiwStevenson.value, tasks.value));
  }
}
