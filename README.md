# resnet-dashboard decision logic in Dafny

This project models the decision logic behind the ResNet help-desk dashboard.
The dashboard pulls tickets from ServiceNow, today's events from Google
Calendar, the staff on shift from When I Work and a task sheet from Google
Sheets. Every network, cache and OAuth call is replaced by its result, passed
in as a value: a status code with the decoded records, a journal per ticket
`sys_id`, a client lookup per caller link, a list of events, a list of users,
a sheet of rows.

The modules follow the source files:

- `Common` (common.dfy): Python's exceptions as a `Result` type, ASCII
  `str.lower`, the substring test `in`, and the whitespace set used by
  `str.split`.
- `Tickets` (tickets.dfy): `get_tickets` and `get_tickets_raw`, and the
  one-line rendering `number + " " + short_description`.
- `Priority` (priority.dfy): `high_priority`. It tags the three filter
  results, pools them in a set, keeps one priority per ticket line in a
  dictionary, sorts by priority and renders the report.
- `Journal` (journal.dfy): `get_journal_entries`' element filter and
  `get_tickets_in_progress`. A ticket is kept when it has no comment, or when
  its newest comment is by its client.
- `Calendar` (calendar.dfy): `housecall_status` and the field projection in
  `calendar_auth_json`.
- `Dashboard` (dashboard.dfy): `loop()` in app.py. It builds the staff lists
  from first names and pads the task sheet in place to nine cells.

Loops in the source are methods with loop invariants. Each is proved against a
function that specifies it. The dictionary of `high_priority` is built from a
set, and a Python set's iteration order is not fixed. The model therefore
takes the next element by choice (`:|`), so every property of the report holds
whatever that order is. The sheet is an `array` of rows, padded in place.

Where the code and its own comments disagree, the model follows the code:

- The conflict rule at _itr.py:163 keeps the numerically larger priority,
  which is the less urgent one. The comments call unassigned tickets
  "priority max" (_itr.py:133) and say to "always favor the higher priority"
  (_itr.py:158), meaning the most urgent class, 0. Both rules are modelled:
  `HighPriority` follows the code and `HighPriorityMostUrgent` follows the
  comments. See "Findings".
- When the client lookup gives nothing, `client` stays `None`
  (_itr.py:94-95). The comment at _itr.py:92-93 describes a fallback to the
  client's user name, which the code does not have. In the model, such a
  ticket is kept only while it has no comment
  (`UnresolvedClientOnlyNewTickets`).

## Model

| member | source | states |
|---|---|---|
| Common.LowerChar | _calendar.py:79 | an upper-case ASCII letter maps to its lower-case letter; every other character is unchanged |
| Common.Lower | _calendar.py:79 | `lower()` keeps the length and folds each character on its own |
| Common.Contains | _calendar.py:80 | Python's `sub in s` on strings; `ContainsIff` proves it equals the positional reading |
| Common.ContainsIff | _calendar.py:80 | the substring test holds exactly when some slice of the text equals the word |
| Common.ContainsInfix | _calendar.py:80 | a word is found in any text that has it as an infix |
| Tickets.Render | _itr.py:52-53 | the line `'{} {}'.format(number, short_description)`; `NumberOfRender` proves the number can be read back from it |
| Tickets.RenderAll | _itr.py:50-53 | one line per record, in upstream order, each `number + " " + short_description` |
| Tickets.NumberOf | _itr.py:52-53 | the part of a rendered line before its first space: a prefix of the line, holding no space, and followed by a space or the end of the line |
| Tickets.NumberOfRender | _itr.py:52-53 | a rendered line gives back the ticket number whenever the number holds no space |
| Tickets.RenderLines | _itr.py:50-53 | the append loop shared by `get_tickets` and `get_tickets_in_progress` yields the rendered line of each ticket, in order |
| Tickets.GetTickets | _itr.py:39-54 | fails with ConnectionError('Problem with get_tickets') exactly when the status is not 200; otherwise one rendered line per record, in order |
| Tickets.GetTicketsRaw | _itr.py:57-64 | fails with ConnectionError('Problem with get_tickets_raw') exactly when the status is not 200; otherwise the records unchanged |
| Priority.Tag | _itr.py:145 | one pair per ticket line, in order, each carrying the filter's priority class |
| Priority.ResolvedIsExtreme | _itr.py:160-168 | the surviving priority is the largest tag of the ticket under `>` and the smallest under `<` |
| Priority.Dedup | _itr.py:156-168 | in whatever order the set is visited, the dictionary has one key per distinct ticket line, keys in insertion order without repeats, and each value is the priority the comparison leaves standing |
| Priority.Absorb | _itr.py:162-168 | one pass of the loop body: the dictionary's tickets grow by exactly the incoming ticket line |
| Priority.AbsorbValid | _itr.py:162-168 | one pass keeps the keys free of repeats and in step with the dictionary |
| Priority.AbsorbTickets | _itr.py:159-168 | after one more pair, the dictionary's tickets are exactly those of the pairs visited so far |
| Priority.AbsorbResolved | _itr.py:162-166 | after one more pair, every value is the priority the rule leaves standing among the pairs visited so far |
| Priority.Items | _itr.py:174 | the items in the dictionary's insertion order, each key with its value |
| Priority.AtLevel | _itr.py:174 | the items of one priority and no others |
| Priority.AtLevelCopies | _itr.py:174 | each item of the priority is kept exactly as many times as the items hold it |
| Priority.AtLevelInOrder | _itr.py:174 | the items of one priority keep their original order |
| Priority.SortByLevelStable | _itr.py:174 | `sorted` is stable: taken one priority at a time, the sorted list is the items of that priority in their original order |
| Priority.SortByLevel | _itr.py:174 | the sorted list has the same length and the same elements as the items |
| Priority.AtLevelSplit | _itr.py:174 | the three priority classes partition the items: lengths and multisets add up |
| Priority.SortByLevelCorrect | _itr.py:174 | the sorted items are in non-decreasing priority and are a permutation of the input |
| Priority.SortByLevelUnique | _itr.py:159-174 | sorting keeps one entry per ticket line |
| Priority.Entry | _itr.py:175-176 | a report entry `{'ticket_name': str(key), 'priority': str(val)}`; its priority text reads back as the class |
| Priority.LevelText | _itr.py:176 | `str(val)` is a single digit between '0' and '2' |
| Priority.LevelTextRoundTrip | _itr.py:176 | reading a rendered priority gives back the class |
| Priority.RenderedIsReport | _itr.py:169-177 | rendering the sorted merged items gives a report: priorities "0"-"2", sorted, one entry per line, every tagged line present, each with its resolved priority |
| Priority.DedupItems | _itr.py:156-174 | the items of the dictionary the loop builds: one per distinct ticket line, each with the priority the rule leaves standing |
| Priority.Report | _itr.py:156-177 | merge, sort and render yield a report of the tagged set |
| Priority.Candidates | _itr.py:143-156 | the set of tagged lines pooled from three successful fetches |
| Priority.Merge | _itr.py:140-177 | any fetch that is not 200 aborts with ConnectionError('Problem with get_tickets'); otherwise the result is a report of the pooled, tagged lines under the given rule |
| Priority.HighPriority | _itr.py:140-177 | as written: fails exactly when a fetch fails, always with ConnectionError('Problem with get_tickets'); otherwise a report in which each line keeps the priority that `>` leaves standing |
| Priority.HighPriorityMostUrgent | _itr.py:157-158 | corrected: the same failure cases and ConnectionError, with each line keeping its most urgent priority |
| Priority.ResolvedUnique | _itr.py:160-168 | a ticket line has exactly one resolved priority |
| Priority.HighPriorityKeepsLargest | _itr.py:163-165 | in the report as written, no tag of a line is larger than the priority it is reported at |
| Priority.ReportIndependentOfOrder | _itr.py:156 | two reports of the same tagged set hold the same entries and as many; set order only reorders equal priorities |
| Priority.ScenarioCandidates | _itr.py:143-156 | one line returned by the unassigned and client-updated filters, plus one more client-updated line, pool to three tagged pairs over two lines |
| Priority.HighPriorityDemotesUnassigned | _itr.py:163-165 | as written, the line that is both unassigned (0) and client-updated (1) is reported at "1", and every entry of that report is at "1" |
| Priority.ScenarioReportAsWritten | _itr.py:163-165 | for the scenario's tagged set, any report under `>` has INC1 at "1" and every entry at "1" |
| Priority.TwoTicketReport | _itr.py:174-176 | a report over two lines with different resolved priorities is exactly those two entries, the more urgent first |
| Priority.MostUrgentKeepsUnassigned | _itr.py:157-158 | with the corrected rule the same inputs give INC1 at "0" followed by INC2 at "1" |
| Priority.ScenarioReportIntended | _itr.py:157-158 | for the scenario's tagged set, the only report under the corrected rule is INC1 at "0" then INC2 at "1" |
| Journal.EntriesOfType | _itr.py:123-124 | the kept notes are exactly those whose element is the journal type, each kept as many times as the notes hold it, and no others |
| Journal.EntriesOfTypeInOrder | _itr.py:123-124 | the kept notes keep their original order |
| Journal.InsertNewestFirst | _itr.py:98-100 | inserting one entry adds exactly that entry |
| Journal.SortNewestFirst | _itr.py:98-100 | the sorted comments are a permutation of the comments |
| Journal.SortNewestFirstOrdered | _itr.py:98-100 | the sorted comments run from newest to oldest |
| Journal.NewestIndex | _itr.py:98-103 | the chosen entry has the latest time, and every entry listed before it is strictly older |
| Journal.SortNewestFirstHead | _itr.py:98-103 | `recent[0]` is the first entry, in input order, among those with the latest time, since the sort is stable |
| Journal.ClientName | _itr.py:67-80 | the client's user name exists exactly when the lookup answered 200 and returned a record |
| Journal.NeedsResponse | _itr.py:97-105 | the test: sort newest first, then keep the ticket when there is no comment or the first comment's author equals the client; `NeedsResponseIff` states it without the sort |
| Journal.NeedsResponseIff | _itr.py:101-105 | a ticket needs a response iff it has no comment, or the client is known and wrote the first of its latest comments |
| Journal.UnresolvedClientOnlyNewTickets | _itr.py:94-105 | when the client is unknown, a ticket is kept iff it has no comment |
| Journal.StaffRepliedLast | _itr.py:101-105 | a client comment followed by a later comment from someone else does not need a response |
| Journal.TieGoesToFirstListed | _itr.py:98-103 | when two comments share the latest time, the one listed first decides |
| Journal.Kept | _itr.py:85-105 | one ticket's decision: its comments and its client, fed to the test |
| Journal.InProgress | _itr.py:85-105 | the kept tickets in filter order; `InProgressMembers` and `InProgressInOrder` characterise it |
| Journal.InProgressMembers | _itr.py:85-105 | the view holds exactly the tickets of the filter that need a response |
| Journal.InProgressInOrder | _itr.py:85-105 | the view is a subsequence of the filter's result |
| Journal.SelectNeedingResponse | _itr.py:86-105 | the loop appends exactly the tickets that need a response, in order |
| Journal.GetTicketsInProgress | _itr.py:83-111 | fails with ConnectionError('Problem with get_tickets_raw') exactly when the 'all' fetch fails; otherwise the rendered lines of the selected tickets |
| Calendar.IsHousecall | _calendar.py:79-80 | both words in the lower-cased summary; `HousecallIgnoresCase` and `HousecallAnywhere` state its properties |
| Calendar.HousecallEvent | _calendar.py:79-80 | an event counts when its summary is text naming a house call |
| Calendar.Summary | _calendar.py:79 | `event['summary']` raises KeyError when missing and AttributeError when not text; otherwise it is the text |
| Calendar.CountHousecalls | _calendar.py:77-82 | the number of house-call events is at most the number of events |
| Calendar.FirstSummaryError | _calendar.py:78-79 | there is no exception exactly when every event has a text summary; otherwise it is the exception of an event whose predecessors all have text summaries |
| Calendar.HousecallStatus | _calendar.py:72-82 | no events (None or empty) gives 0; the first event without a text summary aborts with its exception; otherwise the count of house-call summaries |
| Calendar.CountAppend | _calendar.py:77-81 | the count over two runs of events is the sum of the counts |
| Calendar.HousecallIgnoresCase | _calendar.py:79-80 | two summaries differing only in letter case are both house calls or neither |
| Calendar.CountIgnoresCase | _calendar.py:77-81 | rewriting one summary in another letter case leaves the count unchanged |
| Calendar.HousecallAnywhere | _calendar.py:80 | "house" and "call" are found at any position and in either order |
| Calendar.MissingWordNotCounted | _calendar.py:80-81 | events whose summaries all lack "house", or all lack "call", count 0 |
| Calendar.FirstMissing | _calendar.py:93-95 | the reported field is one of the keys and absent from the event; there is none iff all keys are present |
| Calendar.FirstMissingIsFirst | _calendar.py:93-95 | every key before the reported one is present: it is the first missing key in order |
| Calendar.FirstMissingAt | _calendar.py:93-95 | conversely, a missing key preceded only by present keys is the one reported |
| Calendar.ProjectEvent | _calendar.py:92-95 | the reduced event has exactly the keys id, created, summary, start and end, with their values copied; a missing key raises KeyError for the first one missing, every earlier key being present |
| Calendar.FirstIncomplete | _calendar.py:91-96 | the first event lacking a field, with every earlier event complete |
| Calendar.FirstIncompleteAt | _calendar.py:91-96 | an incomplete event preceded only by complete ones is the one reported |
| Calendar.ProjectEvents | _calendar.py:90-96 | one reduced event per event, in order, each with exactly the five keys and copied values; otherwise the KeyError of the first incomplete event |
| Dashboard.DropSpace | app.py:27 | what remains after the leading whitespace: a suffix whose removed prefix is all whitespace and which does not start with whitespace |
| Dashboard.TakeWord | app.py:27 | the longest prefix without whitespace |
| Dashboard.Split | app.py:27 | every word `split()` returns is non-empty and holds no whitespace |
| Dashboard.SplitEmpty | app.py:27 | `split()` finds no word exactly when the text is all whitespace |
| Dashboard.SplitSkipsLeadingSpace | app.py:27 | leading whitespace does not change the words |
| Dashboard.SplitWordThen | app.py:27 | a word at the head of the text, ended by whitespace or the end, is the first word found |
| Dashboard.SplitJoin | app.py:27 | words joined by single spaces split back into the same words |
| Dashboard.FirstName | app.py:27 | the word after the leading whitespace, or IndexError when there is none |
| Dashboard.FirstNameIsSplitHead | app.py:27 | `FirstName` is `split()[0]`: IndexError when `split` finds no word, its first word otherwise |
| Dashboard.FirstNameBlank | app.py:27 | `split()[0]` raises IndexError exactly when the name is all whitespace |
| Dashboard.FirstNameIsFirstWord | app.py:27 | the name found follows the leading whitespace and runs to the next whitespace or the end |
| Dashboard.FirstWordUnique | app.py:27 | any word placed that way is the one found |
| Dashboard.Entry | app.py:27-28 | one user's `{'name', 'avatar'}` entry, or the IndexError of a blank name |
| Dashboard.WiwEntries | app.py:27-28 | one entry per user, in order, with the user's first word and avatar; a failure is an IndexError |
| Dashboard.WiwEntriesFails | app.py:27-28 | the list fails exactly when some user's name is all whitespace |
| Dashboard.WiwUsesFirstWord | app.py:27-28 | a user whose name is words joined by spaces is listed under the first of them |
| Dashboard.Padded | app.py:34-35 | a padded row has max(len, 9) cells, keeps its original cells as a prefix, and every added cell is '' |
| Dashboard.PadAll | app.py:33-35 | the number of rows is unchanged, and each row is padded |
| Dashboard.PadRows | app.py:33-35 | the loop leaves each row of the array padded |
| Dashboard.PadAllIdempotent | app.py:33-35 | padding twice is padding once |
| Dashboard.Tasks | app.py:37-47 | `row[0]` of each row in order; an empty row raises IndexError, and only an empty row does |
| Dashboard.SheetTasks | app.py:37-47 | an empty or header-only sheet gives no tasks |
| Dashboard.TasksAfterPadding | app.py:33-47 | after padding the task column never fails: one task per row after the header, its first cell or '' |
| Dashboard.Loop | app.py:19-51 | a blank name aborts with IndexError and leaves the sheet untouched; otherwise the sheet is padded in place and the payload holds both staff lists and the task column |

## Left out

- HTTP requests, credentials and URLs (_itr.py:12-16, 43, 61, 70, 121). A
  fetch is its status code and decoded records.
- The ServiceNow filter query strings (_itr.py:19-36). They are opaque
  constants, and each filter's result is an input.
- The Redis cache and JSON serialisation (`write_priority_tickets`,
  `read_priority_tickets`, _itr.py:180-192).
- `datetime.strptime` (_itr.py:125-129). A comment's time is an integer
  standing for the parsed timestamp. The in-place overwrite of
  `sys_created_on` and the ValueError on a malformed time are not modelled.
- `get_journal_entries` does not check the HTTP status. The journal of each
  ticket is an input, so a failed journal request is not modelled.
- Ticket, journal and client records are typed values. The KeyError raised
  when one lacks a field (`number`, `sys_id`, `caller_id`, `user_name`, ...)
  is not modelled. Calendar events are maps, so their missing keys are
  modelled.
- `print` calls (_itr.py:72, 88; _calendar.py:75, 97).
- Google OAuth, pickle token files, the Calendar API query and the clock
  arithmetic (_calendar.py:21-69), and the JSON file write
  (_calendar.py:97-98).
- The Flask routes and templates, and the `wiw`, `sheets` and `utils`
  helpers (`get_users`, `get_shifts`, `on_shift`, the pickles;
  app.py:1-22, 29-31, 51-54). The users on shift at each site and the sheet
  rows are inputs. The wiw, sheets and utils modules are not part of this
  model.
- Common.Lower: folds ASCII letters only. Python's `str.lower` also folds
  other Unicode letters.
- Dashboard.Split: separates on the characters Python's `str.isspace`
  accepts. No other Unicode processing is modelled.

## Findings

| source | as written | input that shows it | evidently intended | confidence | as-written member | corrected member |
|---|---|---|---|---|---|---|
| _itr.py:163 | `if ticket[1] > ticket_no_dupes[ticket[0]]` keeps the numerically larger, less urgent priority | ticket INC1 "Printer jam" returned by both the unassigned filter (0) and the client-updated filter (1), plus INC2 "No wifi" from client-updated: INC1 is reported at "1" | keep the most urgent priority, 0, as the comments at _itr.py:133 and 158 say ("priority max" for unassigned; "always favor the higher priority") | not executed | Priority.HighPriorityDemotesUnassigned | Priority.MostUrgentKeepsUnassigned |
