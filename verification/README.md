# Mutineer BBS: verified algorithms

A Dafny model of the self-contained algorithms of the Mutineer bulletin board system, and
proofs of what they promise. Files and protocol streams are strings or byte sequences; the
database, the clock, sockets, child processes and prompts appear as parameters.

Code that works by changing things in place is modelled so: parsers move a shared cursor,
the editor shifts lines in its array, the telnet filter updates its state byte by byte, the
task table, the message table and the session are objects. Each such method is proved equal
to a function of the old state, and the properties below are proved about these functions
for all inputs, states and runs. They name characters, byte positions and numbers as they
are, not through the definitions that they are about. A `string` stands for the bytes of a
C string before its NUL.

| modules | about |
|---|---|
| `Acs`, `AcsGrammar`, `AcsFlat`, `AcsCompare` | access control strings: the cursor parser, its grammar and printer, the flat checker, and how the two compare |
| `Calendar`, `Scheduler`, `EventLoop` | local time at a fixed offset, schedules, the event thread |
| `Qwk`, `QwkRead`, `QwkLaws`, `QwkRecord`, `QwkIndex` | QWK packets, their reader, the bytes of their records and their index files |
| `FsEdit`, `FsEditorObject`, `FsEditText`, `FsEditSession` | the full-screen editor, and the flat text it refines |
| `Process`, `ProcessParse`, `ProcessLaws` | command templates |
| `Json`, `JsonLaws` | the flat JSON reader and writer |
| `MenuFile`, `MenuFlags`, `MenuLaws`, `MenuLines` | menu files, saved and written by hand |
| `MenuTemplate`, `MenuRows`, `MenuLayout` | visible widths and the rows of menu items |
| `Telnet`, `TelnetStream` | the telnet filter of RFC 854, RFC 1073 and RFC 1091 |
| `TaskTable`, `TaskTableRuns` | the plugin task table and its worker |
| `Threads`, `ThreadLaws` | the thread index of the message table |
| `Echomail`, `EchomailLaws`, `EchomailLines` | echomail files |
| `Base64` | the codec of section 4 of RFC 4648 |
| `Downloads` | download accounting |
| `CStrings`, `Bytes`, `TextFiles`, `Wrappers` | C library routines, bytes, `fgets`, results that may be missing |

`dafny verify dfyconfig.toml` checks everything.

## What the proofs found

These are places where the code does not do what its comments or its callers expect, each
with the lemma that says exactly when it does.

- `acs_check` has no branches for alternatives, negation and parentheses. It tests the words
  of `AcsCompare.CheckTests`: `!` and `(` become part of the word behind them, which then asks
  for nothing, and the first `)` ends the scan with success, so that `(S255)&FB` lets everyone
  in (`AcsCompare.ClosedAtOnce`, `AcsCompare.GroupEndsTheScan`). On tokens that both know,
  without `!` and parentheses, it agrees with the parser for every user if and only if every
  alternative asks for the same flags and the same highest level (`AcsCompare.AgreeIff`). Its
  comment names a download level `D#` that no branch tests.
- A plugin task that runs does so before its due time if and only if its clock plus delay
  reaches 2^64 milliseconds (`TaskTableRuns.FiresOnceOnTime`).
- A monthly schedule for a day that the month lacks falls in the month after it, by as many
  days as are missing (`Scheduler.MonthlyIsNext`, `Scheduler.AprilHasNo31st`).
- `json_str` reads back what `json_escape` wrote if and only if the string has no control
  characters other than line feeds and tabs (`JsonLaws.EscapeComesBack`); a carriage return
  comes back as the letter r (`JsonLaws.ReturnComesBackAsR`).
- The default menu prompt ends in a blank, which is lost when the menu is saved and loaded;
  a menu comes back if and only if its fields are trimmed (`MenuLaws.DefaultPromptIsCut`,
  `MenuLaws.ComesBackIff`).
- A foreign key is checked when the new row is there (`src/db.c:71`,
  `sql/schema.sql:221-225`), so that a message may answer the number that it is about to
  get; `bbslib_message_post` passes any reply number on (`src/bbslib.c:469-478`). Such a
  message is its own root and is shown at depth 10 (`ThreadLaws.SelfReplyIsStored`). Replies
  go to older messages if and only if no such message was posted (`ThreadLaws.RunKeeps`); the
  stored roots are right in any case.
- `db_message_post_ex` binds every number as it is. It stores a message if and only if its
  area, its sender, its recipient and the message it answers, which may be itself, all
  exist, so that 0 for any of them is refused (`ThreadLaws.PostExStoresIff`). The importers
  of reply packets and of echomail leave the recipient and the answered message 0
  (`ThreadLaws.ImportsStoreNothing`).
- The daily kilobyte limit bounds what is booked, which is rounded down. It bounds what is
  sent, for every limit, user and batch, if and only if the sizes of the files are whole
  kilobytes (`Downloads.LimitBoundsAlwaysIff`).
- A body row of a menu screen is written if 256 more characters fit. The rows stay within
  the buffer if and only if no line of the body is longer than that
  (`MenuLayout.BufferHoldsIff`, `MenuLayout.InvisibleTextPasses`).
- Left of the items marker only 255 characters are measured, but all are written. A row is at
  most 80 columns wide if and only if the columns that were not measured are no more than the
  remainder of the division (`MenuLayout.RowWidth`, `MenuLayout.UnseenTextPasses`).
- A cell of more than 127 characters that is not too wide for its column is left out, and
  only its padding is written (`MenuLayout.LongCell`).
- The numbers in a QWK record are cut to seven digits: they read back if and only if they
  have no more (`QwkRecord.RecordNumbers`).
- Two telnet filters that answer each other come to an end if and only if the request is
  not about suppress-go-ahead (`TelnetStream.ExchangeEndsIff`).
- An echomail body loses every line that begins like a tearline or a control line, and
  everything that does not fit 2046 bytes (`EchomailLaws.ExportThenImport`).

## Model

| member | source | states |
|---|---|---|
| Acs.Parser.EvalTerm | src/acs.c:84-335 | the value of the term read at the cursor, for any text; the cursor never moves back |
| Acs.Parser.EvalFactor | src/acs.c:337-347 | the value of the conjunction read at the cursor, and where it ends |
| Acs.Parser.EvalExpr | src/acs.c:349-359 | the value of the expression read at the cursor, and where it ends |
| Acs.AcsAllows | src/acs.c:361-365 | terminates on every text with the value of the expression read from it; an empty string allows everyone |
| AcsGrammar.ShapeMeans | src/acs.c:337-359 | the left-to-right evaluation has the value of the tree the writer means |
| AcsGrammar.TermReads | src/acs.c:84-101 | an atom, a negation or a parenthesised expression, with any blanks, is read as such and ends exactly at its end |
| AcsGrammar.TokenIs | src/acs.c:100-101 | the token that is looked up for an atom is its first 63 characters in upper case |
| CStrings.Codes | src/acs.c:96-101 | white space, digits and upper-case letters by their codes |
| CStrings.AtoiSigned | src/acs.c:104-106 | `atoi` reads blanks, a sign and digits, up to the first other character |
| CStrings.CopyIs | src/menu.c:153-157 | a text is copied with its NUL as far as it fits the buffer |
| AcsGrammar.FactorReads | src/acs.c:337-347 | a conjunction is read to its end, with `&` binding tighter than `\|` |
| AcsGrammar.ExprReads | src/acs.c:349-359 | an expression is read to its end |
| AcsGrammar.EvaluatesToMeaning | src/acs.c:337-365 | the evaluator gives the denotation of any written expression and consumes the whole text |
| AcsGrammar.MinimalIsWellFormed | src/acs.c:84-101 | the printer with minimal parentheses writes the expression it is given, within the grammar |
| AcsGrammar.MinimalIsMinimal | src/acs.c:337-359 | no written form of the same tree has fewer parentheses |
| AcsGrammar.PrintThenEvaluate | src/acs.c:337-365 | printing with minimal parentheses and evaluating gives the denotation, for every expression |
| AcsFlat.ReadToken | src/acs.c:378-384 | the token up to a delimiter, cut to 63 characters and upper-cased |
| AcsFlat.AcsCheck | src/acs.c:369-419 | true exactly if every token of the text passes |
| AcsCompare.FlatTests | src/acs.c:369-419 | for every written expression: true exactly if every word that the flat scan meets passes and, unless a parenthesis has ended it, what follows passes too |
| AcsCompare.CheckTests | src/acs.c:369-419 | so `acs_check` of a whole expression is that of its words |
| AcsCompare.TokensTested | src/acs.c:386-416 | which level or flag `acs_check` asks of each kind of token, and of all others nothing |
| AcsCompare.AcLetters | include/bbs_flags.h:70-88 | the letters of the AC flags |
| AcsCompare.EmptyAllows | src/acs.c:361-371 | an empty string lets everyone in |
| AcsCompare.ClosedAtOnce | src/acs.c:375-384 | a text that begins with `(`, up to 62 characters without delimiters, and `)` lets everyone in, whatever follows |
| AcsCompare.GroupEndsTheScan | src/acs.c:375-384 | in `(X)&Y` neither X nor Y is asked for, where the parser asks for both |
| AcsCompare.NegationAsksNothing | src/acs.c:378-418 | `!X` lets everyone in, where the parser asks for the absence of X |
| AcsCompare.FlatChecksAll | src/acs.c:369-419 | on text without `!` and parentheses the flat checker requires every atom, whatever joins them |
| AcsCompare.CheckAgainstAllows | src/acs.c:361-419 | on such text the parser gives the denotation and the flat checker the conjunction of all atoms: it never lets in anyone the parser keeps out |
| AcsCompare.AgreeIff | src/acs.c:337-419 | on shared tokens without `!` and parentheses the two agree for every user and session if and only if every alternative between `\|` asks for the same flags and the same highest level |
| AcsCompare.AlternativesAreAllRequired | src/acs.c:369-419 | on `FA\|FB` the two differ for a user with only one of the flags |
| AcsCompare.NegationIsPassedOver | src/acs.c:369-419 | on `!FA` the two differ for a user with the flag |
| Calendar.KnownDays | src/scheduler.c:49-104 | four dates of the modelled calendar against their known day numbers |
| Calendar.KnownTimes | src/scheduler.c:49-104 | two Thursdays, and the hour that an offset of an hour adds |
| Calendar.MonthLengths | src/scheduler.c:84-104 | the twelve lengths, and the years whose February has 29 days |
| Calendar.NextMonth | src/scheduler.c:99-102 | each month starts where the one before it ended, including December to January |
| Calendar.MonthsIncrease | src/scheduler.c:99-102 | months start in increasing order |
| Calendar.MktimeLocaltime | src/scheduler.c:49-51 | mktime undoes localtime_r |
| Calendar.LocaltimeOn | src/scheduler.c:71-98 | localtime_r finds the day, month and time that mktime was given |
| Scheduler.DailyIsNext | src/scheduler.c:44-54 | `daily@` gives the least instant at or after now at that time of day |
| Scheduler.WeeklyIsNext | src/scheduler.c:56-82 | `weekly:` gives the least instant after now at that time on that weekday |
| Scheduler.MonthlyIsNext | src/scheduler.c:84-104 | `monthly:` comes after now; it is on its day exactly if the month aimed at has that day, and then it is the least such instant; otherwise it is in the next month, on the day that counts the missing ones |
| Scheduler.AprilHasNo31st | src/scheduler.c:95-103 | on 1 April `monthly:31@00:00` gives 1 May |
| Scheduler.NeverPast | src/scheduler.c:41-115 | no schedule with a time of day gives an instant in the past |
| Scheduler.FallsIff | src/scheduler.c:41-115 | for every schedule with a time of day, the instant given is the first one that it names, and no other; for a month without the day it is as many days into the next as are missing; `every:` counts from now |
| Scheduler.DailyReads | src/scheduler.c:44-50 | the text of a daily schedule is read as its hour and minute |
| Scheduler.WeeklyReads | src/scheduler.c:57-69 | the text of a weekly schedule is read as its day, hour and minute, the day by its first three letters in any case, from Sunday on |
| Scheduler.DayIsKnown | src/scheduler.c:29-39 | a name is that of a day if and only if it begins with the three letters of it, in any case; the name of no day gives -1 |
| Scheduler.MonthlyReads | src/scheduler.c:85-93 | the text of a monthly schedule is read as its day, hour and minute |
| Scheduler.EveryReads | src/scheduler.c:106-111 | `every:N` is every N seconds, or five minutes if N is not positive |
| Scheduler.OtherwiseHourly | src/scheduler.c:41-115 | anything else is hourly: other words, a missing `@`, the name of no day, a day outside 1 to 31 |
| EventLoop.SchedThread.PassEvent | src/scheduler.c:161-195 | one event of a pass, in the table: planned if it has no next run, and fired and left without a next run if it is due |
| EventLoop.SchedThread.Tick | src/scheduler.c:155-198 | a pass treats each of the first 32 events so and leaves the others |
| EventLoop.RunStaysOnTime | src/scheduler.c:155-198 | what holds after any run of passes with an advancing clock, whatever plan is stored when it begins |
| EventLoop.FiresInOrder | src/scheduler.c:155-198 | over any run, from any stored plan, no event fires before its planned instant, and the planned instants strictly increase |
| EventLoop.FiresAtFirstChance | src/scheduler.c:155-198 | a planned event is fired by the first pass at or after its plan |
| EventLoop.PlannedAndFired | src/scheduler.c:155-198 | whenever an active event has no plan in a run, at the beginning or after a firing, the next pass plans it for the instant that its schedule asks for, the passes before that instant leave it, and the first one at or after it fires it once |
| EventLoop.NeverFires | src/scheduler.c:161-166 | over any run an event that is switched off or not scheduled never fires and stays as it is |
| Qwk.HeaderComesBack | src/qwk.c:72-87 | the record is 128 bytes, and each field is read back from its place |
| Qwk.MakeHeader | src/qwk.c:239-283 | every field of the record of a message, with the branches for missing dates, names and private mail |
| Qwk.MakeBody | src/qwk.c:296-308 | line feeds become byte 227 and blanks fill the last block |
| Qwk.MessagesDat.WriteMessage | src/qwk.c:238-313 | one message more in the file, in the index and, if it is to the user, in the personal index |
| Qwk.MessagesDat.Write | src/qwk.c:196-321 | the file, both indexes and the used areas for any areas and messages |
| QwkRead.UnmarkLineFeeds | src/qwk.c:569-572 | byte 227 becomes a line feed, in place |
| QwkRead.TrimEnd | src/qwk.c:574-577 | blanks and NULs are cut off, in place |
| QwkRead.ReadBody | src/qwk.c:561-577 | the body that is posted for the bytes of its blocks |
| QwkRead.ImportRep | src/qwk.c:543-617 | the messages posted from any file, and where the reader stops |
| QwkLaws.RecordReads | src/qwk.c:549-606 | reading at a record the writer wrote gives its message and goes on right behind its blocks |
| QwkLaws.PacketReads | src/qwk.c:196-321 | a written packet is read to its end and gives back every message, in order |
| QwkLaws.ComesBackIff | src/qwk.c:231-309 | a message comes back unchanged if and only if its fields fit and have no blanks at their ends, and its body has no byte 227 |
| QwkLaws.IndexPointsAtRecords | src/qwk.c:285-289 | each index entry has the area of its message, and its block times 128 is where the record stands |
| QwkRecord.RecordMarks | src/qwk.c:239-283 | the status is `+`, `*` or blank exactly for a message to the reader, to another or to all; byte 122 is 225; area and message number are the two bytes each, low byte first |
| QwkRecord.RecordTexts | src/qwk.c:264-266 | recipient, or All, sender, or the handle, and subject stand at bytes 21, 46 and 71, cut to 25 characters or filled up with blanks |
| QwkRecord.RecordNumbers | src/qwk.c:246-275 | the numbers at bytes 1 and 108 read back as those of the message and of the one it answers if and only if they have at most seven digits; the number at 116 counts the blocks of 128 bytes that header and body take |
| QwkRecord.RecordDates | src/qwk.c:248-263 | the date is month, day and last two digits of the year, and the time hour and minute, of the day and time in digits that the message was created |
| QwkRecord.RecordUndated | src/qwk.c:248-263 | without a day there is no date, without a time no time |
| QwkRecord.RecordBody | src/qwk.c:296-308 | behind the header stands the body, with byte 227 for each line feed, and blanks |
| QwkRecord.MessageIsSent | src/qwk.c:214-321 | every message of an area that may be read is in the packet, in the order of areas and messages |
| QwkRecord.PacketSize | src/qwk.c:214-321 | and no others are |
| QwkRecord.AreaIsUsedIff | src/qwk.c:318-320 | the areas used are exactly those that may be read and have messages |
| QwkRecord.PersonalIsMine | src/qwk.c:291-295 | the personal index has exactly the messages to the reader, in order |
| QwkRecord.RecordIsPosted | src/qwk.c:549-606 | a record of any file is posted if and only if its byte 122 is 225 and the user may post in the area of bytes 123 and 124; a number of blocks outside 1 to 1000 ends the file |
| QwkRecord.BodyMeans | src/qwk.c:561-577 | of any body blanks and NULs at the end are cut off, byte 227 becomes a line feed, and 2047 characters are kept |
| QwkRecord.BodyEndsAtNul | src/qwk.c:561-577 | and nothing behind a NUL |
| QwkIndex.WriteNdxFiles | src/qwk.c:153-190 | one file for each used area that has entries, with exactly its entries in order |
| QwkIndex.EntryIsFiled | src/qwk.c:172-177 | an entry is behind the entries of its area that come before it |
| QwkIndex.PersonalRecords | src/qwk.c:180-190 | the personal file has a record for each entry, in order |
| QwkIndex.MessageIsIndexed | src/qwk.c:153-321 | each of the first 4096 messages is in the file of its area, with the low byte of that and the block that its record stands at |
| FsEdit.KeyKeepsOk | src/fsedit.c:28-40 | every key keeps 1 to 50 lines of at most 78 characters, the cursor in its line and in the viewport |
| FsEdit.KeyStaysInBounds | src/fsedit.c:9-40 | in numbers: 1 to 50 lines of at most 78 characters, the cursor in its line and among the 20 lines shown |
| FsEdit.LoadedIsOk | src/fsedit.c:106-123 | whatever text is loaded, the editor starts in order |
| FsEditorObject.FsEditor.Load | src/fsedit.c:98-123 | the lines loaded from any text: up to 50 of them, cut to 78 characters, without line ends |
| FsEditorObject.FsEditor.ClampCursor | src/fsedit.c:28-40 | the cursor is put back into its line and the viewport around it |
| FsEditorObject.FsEditor.Move | src/fsedit.c:141-154 | the arrow keys |
| FsEditorObject.FsEditor.DeleteLine | src/fsedit.c:163-179 | the current line goes, in the array |
| FsEditorObject.FsEditor.InsertLine | src/fsedit.c:181-195 | an empty line opens below the current one while there are fewer than 50 |
| FsEditorObject.FsEditor.Enter | src/fsedit.c:197-214 | the line is split at the cursor while there are fewer than 50 |
| FsEditorObject.FsEditor.Backspace | src/fsedit.c:217-245 | the character before the cursor goes, or the line joins the one above if that fits |
| FsEditorObject.FsEditor.Type | src/fsedit.c:247-262 | a character is inserted or written over |
| FsEditorObject.FsEditor.Handle | src/fsedit.c:141-262 | any key but saving and leaving |
| FsEditorObject.FsEditor.SaveText | src/fsedit.c:77-96 | exactly the first `cap - 1` characters of the lines with CR LF after each, and a NUL |
| FsEditText.KeyIsFlat | src/fsedit.c:141-262 | every key is the matching operation on one flat text with a cursor |
| FsEditSession.EnterThenBackspace | src/fsedit.c:197-245 | Enter and then Backspace restore text and cursor whenever Enter took effect |
| FsEditSession.TypeThenBackspace | src/fsedit.c:217-262 | inserting a character and then Backspace restore text and cursor whenever the insertion took effect |
| FsEditSession.LoadSaved | src/fsedit.c:77-123 | loading what was saved gives back the same lines |
| FsEditSession.AnyTextLoads | src/fsedit.c:77-96 | any text is loaded line by line: each without its line feed and a carriage return before that, cut to 78 characters, the first 50 of them, and a last one without a line feed if it is not empty |
| FsEditSession.SessionIsFlat | src/fsedit.c:98-262 | over any keys the editor and the flat text stay in step |
| FsEditSession.ReturnCode | src/fsedit.c:156-161 | the code is 1 if the first key that leaves is control S, 0 if it is control A, and -1 if there is none; keys behind it make no difference |
| FsEditSession.FsEditEdit | src/fsedit.c:98-262 | the return code and the saved text of a whole session |
| Process.CommandContainsShellMeta | src/process.c:17-41 | whether the command holds a shell operator; which commands those are is `ProcessLaws.RefusedIff` |
| Process.ArgVector.Push | src/process.c:49-60 | one argument more and a NULL after it, in an array of 8 that doubles when there is no room for both |
| ProcessParse.ReadToken | src/process.c:113-139 | one token with quotes and backslashes, refused if it is longer than 1023 characters or not closed |
| ProcessParse.ReplaceMarker | src/process.c:62-92 | the first marker replaced, if there is one |
| ProcessParse.PushArguments | src/process.c:104-154 | the arguments of the command with the marker replaced in each, and whether any had one |
| ProcessParse.BbsArgvParseTemplate | src/process.c:94-173 | the arguments or the refusal, with the path appended exactly if no argument had a marker |
| ProcessParse.BbsArgvParseDoorTemplate | src/process.c:175-239 | the same with the drop directory, and nothing appended |
| ProcessLaws.RefusedIff | src/process.c:17-41 | a command that is not empty is refused by the filter if and only if one of `` ` ``, `;`, `<`, `>`, `\|`, `$(` and `&&` stands in it, inside quotes or outside, with an even run of backslashes before it |
| ProcessLaws.CommandSplitsIff | src/process.c:104-154 | words in any mixture of bare characters, single and double quotes and backslashes, with any blanks between them, are split into the arguments they mean if and only if each has at most 1023 characters |
| ProcessLaws.OpenQuoteRefuses | src/process.c:136-139 | quotes that are not closed refuse the command |
| ProcessLaws.LastBackslash | src/process.c:127-131 | a backslash that ends the command stands for itself |
| ProcessLaws.CommandComesBackIff | src/process.c:94-173 | any non-empty list of arguments, quoted and escaped into one command, is accepted and comes back if and only if each has at most 1023 characters; otherwise the whole command is refused |
| ProcessLaws.FileSubstitution | src/process.c:141-164 | whenever the command splits without a path, with one it splits into the same arguments, each with the path in the place of its first `%f` and the text around it kept, and the path after them exactly if none had the marker |
| ProcessLaws.DropdirSubstitution | src/process.c:221-223 | the door form puts the directory in the place of `%D` in the same way and appends nothing |
| ProcessLaws.AcceptedWithPath | src/process.c:94-173 | a path changes acceptance only for a command without arguments; an empty command is refused |
| Json.JsonFindKey | src/doors.c:314-325 | the position after the first quoted key that a colon follows |
| Json.JsonStr | src/doors.c:327-352 | the decoded string value, as much of it as fits, and a NUL |
| Json.JsonInt | src/doors.c:354-361 | the integer value, if a digit or a minus stands there |
| Json.JsonBool | src/doors.c:363-370 | the boolean value |
| Json.JsonEscape | src/doors.c:39-56 | each character as it is written, other control characters dropped |
| JsonLaws.SearchStops | src/doors.c:314-325 | in any flat object the search stops at the name of the first member that has the key, never inside a string |
| JsonLaws.FindsOwnValue | src/doors.c:314-325 | json_find_key lands just behind the colon of the key's own member |
| JsonLaws.LongSearch | src/doors.c:315-320 | a name of more than 125 characters is searched for without what does not fit the buffer |
| JsonLaws.AbsentKeyIsNotFound | src/doors.c:314-325 | a key that no member has is not found, even if a string value holds it in quotes |
| JsonLaws.StringIsRead | src/doors.c:327-352 | a string member is read as the string its escapes stand for |
| JsonLaws.IntIsRead | src/doors.c:354-361 | an integer member is read as its number |
| JsonLaws.BoolIsRead | src/doors.c:363-370 | a boolean member is read as its value |
| JsonLaws.KeptIff | src/doors.c:39-56 | a string survives exactly if it has no control characters but line feeds and tabs |
| JsonLaws.EscapeComesBack | src/doors.c:39-56 | json_str gives back what json_escape wrote with carriage returns as the letter r and without other control characters, and so unchanged if and only if it has only line feeds and tabs |
| JsonLaws.ReturnComesBackAsR | src/doors.c:39-56 | a carriage return comes back as the letter r |
| MenuFile.FormatFlags | src/menu.c:65-94 | the names of the flags with commas between them |
| MenuFile.ParseFlags | src/menu.c:19-61 | the flags named between commas, in any case and with blanks around them |
| MenuFile.ParseLine | src/menu.c:96-164 | the item of a line, or none; what each number of fields gives is `MenuLines.FieldsLoad` |
| MenuFile.MenuLoad | src/menu.c:166-234 | the menu that any file loads as |
| MenuFile.MenuSave | src/menu.c:236-273 | the file that a menu is saved as |
| MenuFlags.FlagsRoundTrip | src/menu.c:19-94 | formatted and parsed, the flags that have names are the same and no others are there |
| MenuLaws.DirectiveLine | src/menu.c:193-218 | a directive gives its word and its trimmed value, even an empty one |
| MenuLaws.ItemReads | src/menu.c:96-164 | a saved item line is read as its item with every field trimmed |
| MenuLaws.LoadSaved | src/menu.c:166-273 | a saved menu whose fields stay on their lines loads with every field trimmed, and its items in order |
| MenuLaws.ComesBackIff | src/menu.c:166-273 | it is the same menu if and only if its fields are trimmed, its columns are 1 to 4 and its flags have names |
| MenuLaws.DefaultPromptIsCut | src/menu.c:168-170 | the default prompt does not come back |
| MenuLines.FieldsLoad | src/menu.c:96-164 | a line of two to eight fields adds an item exactly if there are three or more and the first is not blank: key, caption and action; the fourth of four is the access string, and of five or more the data, with access string, flags and password behind it, each trimmed and cut to its buffer |
| MenuLines.NoBarNoItem | src/menu.c:117 | a line without bars is no item |
| MenuLines.TrimMeans | src/menu.c:119-122 | white space on either side is cut off and nothing else |
| MenuLines.FlagListsParse | src/menu.c:19-61 | a list of flags gives exactly those whose names it has, in any case and with any blanks |
| MenuLines.FlagBits | include/bbs_menu.h:6-19 | the names of the flags by their bits |
| MenuLines.DirectiveSets | src/menu.c:202-218 | a directive is known by its word in any case, sets its field, cut to its buffer, and other words set nothing |
| MenuLines.LongListIsCut | src/menu.c:19-23 | of a longer list of flags the first 255 characters are read |
| MenuLines.EmptyFileLoads | src/menu.c:166-170 | the menu of an empty file |
| MenuLines.SavedBegins | src/menu.c:245-246 | a saved file begins with the name of the menu, or "menu", and its title |
| TextFiles.LongLine | src/menu.c:187-188 | of a line that does not fit its buffer 511 characters are read at a time |
| MenuLines.ItemBegins | src/menu.c:258-262 | a saved item line begins with the key, or the longer key, and a bar |
| MenuTemplate.VisibleLen | src/menu_template.c:65-89 | the columns of any text |
| MenuTemplate.FitCell | src/menu_template.c:397-454 | the fitted cell for any text, width and buffer |
| MenuRows.CalcBodyWidth | src/menu_template.c:525-545 | the columns that the template leaves for items |
| MenuRows.ComputeColumns | src/menu_template.c:548-562 | the most columns, of those asked for, that are at least 10 wide |
| MenuRows.FillRow | src/menu_template.c:719-740 | one row of fitted cells, within its 256 characters |
| MenuRows.WriteRows | src/menu_template.c:716-767 | all rows, each written if there is room |
| MenuRows.RenderBody | src/menu_template.c:681-767 | the body of the screen in the most columns, of those wished for, that are at least 10 wide, or nothing if the template leaves no room |
| MenuLayout.FitsExactlyIff | src/menu_template.c:397-454 | with room, a cell takes exactly its column if and only if it leaves no sequence open that padding would fall into, and no control character is counted in what is kept of it |
| MenuLayout.VisibleCounts | src/menu_template.c:65-89 | in any text of complete sequences, control characters and others, exactly the others take a column |
| MenuLayout.PrintableFitted | src/menu_template.c:397-454 | a printable cell is padded with blanks, or cut to three characters less and followed by three dots |
| MenuLayout.LongCell | src/menu_template.c:397-420 | a cell of 127 characters is kept; of a longer one that is not too wide only the padding is left |
| MenuLayout.ItemCell | src/menu_template.c:374-393 | the cell of an item is its key in brackets, a blank and its caption, cut to 15 and 108 characters |
| MenuLayout.CleanFits | src/menu_template.c:397-454 | so text with complete sequences and no other control characters always takes exactly its column |
| MenuLayout.RoomyFits | src/menu_template.c:397-454 | a buffer with two characters to spare changes nothing |
| MenuLayout.RowsAreGrid | src/menu_template.c:716-739 | the rows are the cells in order, so many to a row, none lost |
| MenuLayout.ItemPlace | src/menu_template.c:716-739 | every item stands in the one row and column of its index |
| MenuLayout.RowCount | src/menu_template.c:714-767 | there are as many rows as it takes and no more |
| MenuLayout.RowWidth | src/menu_template.c:525-767 | every row takes 80 columns less the remainder of the division, and those left of the marker that were not measured; it keeps to 80 columns if and only if these are no more than the remainder |
| MenuLayout.RowAtMost | src/menu_template.c:525-767 | on any template line rows are no wider than that, and keep to 80 columns if all that stands left of the marker is measured |
| MenuLayout.UnseenTextPasses | src/menu_template.c:532-537 | 255 backspaces and ten letters beside the marker leave 80 columns for items, and every row is 88 or 90 columns wide |
| MenuLayout.PrintableIsFine | src/menu_template.c:397-454 | a printable cell meets the conditions of these laws, and fitted it is as long as it is wide |
| MenuLayout.LabelsAreFine | src/menu_template.c:374-393 | so do the cells of items with printable keys and labels |
| MenuLayout.ScreenHoldsItems | src/menu_template.c:714-767 | with room for it the screen is the rows, one after the other |
| MenuLayout.LinesEnd | src/menu_template.c:718-767 | each line of the body ends with a carriage return and a line feed, and an empty menu has one blank line |
| MenuLayout.BufferHoldsIff | src/menu_template.c:742-763 | the rows stay within every buffer, whatever stands in it, if and only if no line of the body is longer than 256 characters |
| MenuLayout.InvisibleTextPasses | src/menu_template.c:742-763 | 255 characters without columns beside the marker leave 80 columns for items and break that condition |
| Telnet.TelnetState.HandleIacCmd | src/telnet.c:52-82 | the reply to a command, if there is one |
| Telnet.TelnetState.ProcessSb | src/telnet.c:84-105 | the window size or terminal type of a subnegotiation |
| Telnet.TelnetState.Feed | src/telnet.c:107-171 | the state, the data and the replies after any bytes, with any room for data |
| TelnetStream.CutAnywhere | src/telnet.c:107-171 | however the stream is cut into reads, the outcome is the same |
| TelnetStream.EventsDeliver | src/telnet.c:107-171 | any legal stream delivers exactly its data and gets exactly the replies, in order |
| TelnetStream.EventsResize | src/telnet.c:84-105 | the window and the terminal type are the last ones announced in range, in the bytes of RFC 1073 and RFC 1091 |
| TelnetStream.StreamDelivers | src/telnet.c:107-171 | both, for any legal stream in any reads |
| TelnetStream.WindowIsSet | src/telnet.c:84-96 | a stream that ends by announcing w by h, each in two bytes with the high one first, leaves the window w by h |
| TelnetStream.TerminalIsSet | src/telnet.c:97-104 | one that ends by naming a terminal leaves that name, up to 63 bytes of it |
| TelnetStream.AlwaysInBounds | src/telnet.c:84-171 | on any bytes at all the window stays in 1 to 999 and the buffer within 128 |
| TelnetStream.RequestsAnswered | src/telnet.c:52-82 | which of the four answers, if any, each request gets, in the numbers of RFC 854 |
| TelnetStream.ExchangeEndsIff | src/telnet.c:52-171 | two filters that answer a request and then each other fall silent, within three answers, if and only if it does not ask for or offer suppress-go-ahead |
| TaskTable.Table.HostSchedAfterMs | src/plugin_host_api.c:295-320 | a task in the first free slot with its due time and a new id, or an error |
| TaskTable.Table.HostSchedEnqueue | src/plugin_host_api.c:272-293 | the same, due at once |
| TaskTable.Table.HostSchedCancel | src/plugin_host_api.c:322-333 | the task is taken off exactly if it is still pending |
| TaskTable.Table.WorkerSection | src/plugin_host_api.c:115-154 | what the worker does from taking the lock to releasing it |
| TaskTableRuns.NextKeeps | src/plugin_host_api.c:115-333 | every critical section keeps the invariant |
| TaskTableRuns.RefusedIffFull | src/plugin_host_api.c:295-333 | a task with a callback is refused if and only if all 64 slots are taken; otherwise it is pending with the next id and its due time, and so is whatever was |
| TaskTableRuns.RunKeeps | src/plugin_host_api.c:115-333 | so does every interleaving of them |
| TaskTableRuns.ExactlyOnePlace | src/plugin_host_api.c:115-333 | each id handed out is in exactly one of pending, fired or cancelled |
| TaskTableRuns.FiresOnceOnTime | src/plugin_host_api.c:122-137 | over every run: no task runs twice, each runs its own callback, and before its due time if and only if that reaches 2^64 |
| TaskTableRuns.CancelIsFinal | src/plugin_host_api.c:322-333 | after a successful cancel the task never runs |
| TaskTableRuns.EarlyExactlyOnWrap | src/plugin_host_api.c:295-320 | on an empty table a delayed task is run by a pass at the same instant if and only if clock plus delay reaches 2^64 |
| TaskTableRuns.PassServesDueTasks | src/plugin_host_api.c:119-137 | once a pass is over no task that was due when it began is pending |
| TaskTableRuns.PassFromWake | src/plugin_host_api.c:119-137 | each of them was run by then, or cancelled |
| Threads.MessageBase.DbMessagePost | src/db.c:2341-2380 | whether the message is stored, with its area, the number it answers, which may be its own, and its root |
| Threads.MessageBase.DbMessagePostEx | src/db.c:2385-2423 | the same with every number bound as it is, and the rows it refers to looked up |
| Threads.MessageBase.CmdMsgReply | src/msg_cmds.c:560-632 | a reply is stored in the area of an existing message |
| Threads.MessageBase.DbMessageReplyTree | src/db.c:3254-3290 | the selected messages in the order of their numbers, up to the limit; a root that is NULL matches no number |
| Threads.MessageBase.Depth | src/msg_cmds.c:1155-1166 | 10 if the reply chain ends in a message that answers itself; otherwise the smaller of 10 and the distance to the root |
| Threads.MessageBase.CmdMsgThreadView | src/msg_cmds.c:1130-1142 | the thread found for any of its messages, up to 100 |
| ThreadLaws.NextKeeps | src/db.c:2346-2395 | every post and reply keeps the stored root equal to the end of the reply chain, and changes no older row; replies stay in order if and only if the step stores no reply to its own number |
| ThreadLaws.RunKeeps | src/db.c:2341-2423 | so does every sequence of them, from an empty table, with replies in order if and only if no step of it stored a reply to its own number |
| ThreadLaws.SelfReplyIsStored | sql/schema.sql:221-225 | a message posted as a reply to the number it is about to get is stored as its own root and shown at depth 10 |
| ThreadLaws.OrderedDepth | src/msg_cmds.c:1155-1166 | with replies in order every message is shown at its distance from the root, up to 10 |
| ThreadLaws.DepthSteps | src/msg_cmds.c:1155-1166 | then a message that is no reply is shown at depth 0, and a reply one deeper than what it answers, up to 10 |
| ThreadLaws.ThreadIsFound | src/db.c:3259-3290 | whichever message is asked for, the query finds exactly those of its area that share its root |
| ThreadLaws.RootZeroFindsNone | src/db.c:3259-3290 | no message is in a thread of root 0 |
| ThreadLaws.WholeThreadIsFound | src/msg_cmds.c:625-632 | with replies by the reply command these are all messages that share its root |
| ThreadLaws.PostStoresIff | src/db.c:2341-2380 | a message is stored if and only if its area and its user exist and it is no reply, or one to a message that exists or to itself |
| ThreadLaws.PostExStoresIff | src/db.c:2389-2417 | a message is stored if and only if its area, its sender, its recipient and the message it answers, which may be itself, all exist, none of them 0 |
| ThreadLaws.ReplyStoresIff | src/msg_cmds.c:560-632 | the reply command stores a reply if and only if the message it answers exists, with its area and the user |
| ThreadLaws.StoredAsAsked | src/db.c:2341-2423 | what is stored gets the next number, the area and the answered message that were asked for, and the root of that one, or that one if it has none |
| ThreadLaws.UnboundReplyIsRefused | src/db.c:2403-2407 | a message posted with reply number 0 bound is not stored |
| ThreadLaws.PublicReplyIsRefused | src/db.c:2403-2407 | nor is one with recipient 0 bound, even as a reply |
| ThreadLaws.ImportsStoreNothing | src/qwk.c:599-609 | over any sequence of imports, which leave both 0, the table stays as it is |
| Echomail.WriteEchomailFile | src/fido_netmail.c:122-149 | the file of a message |
| Echomail.ReadHeaders | src/fido_netmail.c:269-293 | the headers of any file, and where its body begins |
| Echomail.ReadBody | src/fido_netmail.c:295-309 | the body kept of any file |
| Echomail.ParseEchomail | src/fido_netmail.c:258-318 | what is imported of any file, or that it is rejected |
| EchomailLaws.BodyReads | src/fido_netmail.c:295-309 | the body is read whole if and only if it fits and no line of it is dropped; never more is read |
| EchomailLaws.HeadersComeBack | src/fido_netmail.c:269-293 | single-line header fields are read back |
| EchomailLaws.NameBackIff | src/fido_netmail.c:278-286 | a sender comes back unchanged if and only if it has no `<` and no blank at its end |
| EchomailLaws.AddressReads | src/fido_netmail.c:131-133 | the address behind the sender is zone:net/node.point, each number as it is |
| EchomailLaws.IdReads | src/fido_netmail.c:129 | the line that names a message carries its number |
| EchomailLaws.ExportThenImport | src/fido_netmail.c:122-309 | export and import give back tag, sender, recipient and subject, and the body without carriage returns and one line feed more exactly if that fits and loses no line |
| EchomailLines.FileOfLines | src/fido_netmail.c:258-330 | what is imported of any file of lines: it is rejected exactly without the mark of the format, an area or a subject; of repeated headers, in any order, the last counts; tearlines and lines of the net are left out of the body, and lines that do not fit 2046 characters |
| EchomailLines.CrLfHeader | src/fido_netmail.c:273-275 | a carriage return before the line feed makes no difference to a header |
| EchomailLines.LinesWritten | src/fido_netmail.c:121-149 | the lines of the file of a message, in their order |
| EchomailLines.BodyIsWritten | src/fido_netmail.c:141-145 | of a body carriage returns are left out |
| EchomailLines.PlainIsWritten | src/fido_netmail.c:141-145 | and nothing else |
| Base64.B64 | src/hash.c:15-31 | the text in four characters for three bytes, or -1 exactly if it and its NUL do not fit |
| Base64.B64Dec | src/hash.c:77-98 | the bytes of any text, or -1 exactly if they do not fit |
| Base64.WrapIsHarmless | src/hash.c:84-96 | the 32-bit accumulator may wrap: the bits that wait are the same |
| Base64.LengthOfEncoded | src/hash.c:15-31 | the text of n bytes has 4 * ceil(n / 3) characters |
| Base64.SymbolIs | src/hash.c:16 | the symbols are the alphabet of RFC 4648 |
| Base64.GroupIsNumber | src/hash.c:18-27 | up to three bytes are written as the digits of their number in base 64, the missing ones as `=` |
| Base64.RoundTrip | src/hash.c:15-98 | decoding gives back what was encoded, for every length |
| Downloads.Session.DownloadAllowed | src/file_cmds.c:76-117 | whether a download is allowed, and its cost |
| Downloads.Session.RecordDownloadSuccess | src/file_cmds.c:127-138 | what is booked for a download |
| Downloads.Session.BatchDownload | src/file_cmds.c:592-622 | the state after any batch, and how many files were sent |
| Downloads.RatioMeans | src/file_cmds.c:109-115 | the ratio check lets a download through exactly if downloads are fewer than (uploads + 1) times the denominator |
| Downloads.HappensIff | src/file_cmds.c:76-117 | in bytes: a download takes place if and only if file and area are known, the file is validated or the user a sysop, it is not offline, the area is open, it is sent, it fits the limits that are on with all its bytes, and credits and ratio allow it |
| Downloads.ChargeIs | src/file_cmds.c:76-83 | a charge is nothing for free files and users who do not pay, and otherwise the least number of kilobytes, at least one, that the file fits |
| Downloads.BatchCounts | src/file_cmds.c:127-138 | each download is counted once, for good and for the day, the same kilobytes are booked for both, and nothing else changes but the credits |
| Downloads.BatchKeeps | src/file_cmds.c:592-622 | over any batch credits are not drawn below zero, no daily limit that is on is passed, and the ratio is kept |
| Downloads.CreditsConserved | src/file_cmds.c:127-138 | both balances fall by exactly the sum of the charges |
| Downloads.BytesBooked | src/file_cmds.c:127-138 | the bytes sent are exactly those of the kilobytes booked and those lost in rounding, less than a kilobyte a file |
| Downloads.BookedExactlyIff | src/file_cmds.c:127-138 | what is booked is exactly what is sent if and only if every file sent is a whole number of kilobytes |
| Downloads.LimitBoundsIff | src/file_cmds.c:95-98 | a limit bounds the bytes sent in a day if and only if what is booked and what is lost stay within it together |
| Downloads.LimitBoundsAlwaysIff | src/file_cmds.c:76-138 | it does so for every limit, user and batch if and only if the sizes of the files are whole kilobytes |
| Downloads.SmallFilesPassTheLimit | src/file_cmds.c:95-98 | two files of 1023 bytes are sent under a limit of one kilobyte |

## Left out

- AcsCompare.AgreeIff: levels have no width; in C they end at 2^31.
- Daylight saving time, and schedules whose hour or minute is out of range.
- Warnings before events, events run at logon, and the commands that events run.
- The meaning of access tokens that need the clock, the database or the session: a token's truth is a parameter.
- SQL, and the deletion of old messages by maintenance jobs: the message table only grows.
- Threads.MessageBase.DbMessagePostEx: of the columns only those with foreign keys are modelled; that the database is at hand and can write is a parameter.
- QwkIndex.WriteNdxFiles: the byte layout of the block number as a float; the integer is what is stored.
- Qwk.MessagesDat.Write: which messages are new, and access to areas, are parameters; CONTROL.DAT, DOOR.ID and NEWFILES.DAT are left out.
- QwkRead.ImportRep: whether the database then keeps a message that is posted.
- FsEditSession.FsEditEdit: screen drawing and the timing of key sequences; a line buffer is the string before its NUL.
- The wrap of the task id counter after 2^64 tasks, and the shutdown of the task thread: a run is one running period.
- Json.JsonInt: numbers outside the range of an int, on which `atoi` is undefined.
- JsonLaws.FindsOwnValue: objects nested in values, and keys with quotes, backslashes, blanks or JSON punctuation.
- MenuRows.FillRow: the expansion of codes in labels; cells are given as formatted text.
- MenuRows.WriteRows: the buffer is a string, so that what a too long line overwrites behind it is not modelled; when that happens is stated by `MenuLayout.BufferHoldsIff`.
- Template header and footer lines, other placeholders and the placement of the prompt.
- Telnet.TelnetState.Feed: the initial negotiation and echo control around passwords.
- EchomailLaws.ExportThenImport: the lookup of the area by tag, and moving files to the done and bad directories.
- Downloads.Session.DownloadAllowed: overflow of 32-bit sums for files near 2 GB; area access and passwords are parameters.
- The hash functions around the base64 codec, and the login throttle.
- Configuration, MCI codes, chat, PLANK, Buccaneer, netmail and the plugin loader.
