# PowerGuru: a Dafny model

PowerGuru monitors renewable-energy equipment. This project models the parts of it whose logic is not
obvious from reading one function, and proves what they do and where they fall short.

* **The Xantrex menu walk.** The host drives an inverter's LCD menu with four keys. It keeps a cursor of its own
  and corrects it by looking for the expected label on the display, with up to five presses per call. The inverter
  is modelled as a second automaton with its own cursor, which may ignore keys. Modules `Text`, `Display`, `Menu`,
  `Navigation`, `Polling`, `DefaultMenu`, `XantrexUIClass`, `CleanUp`.
* **XML in PHP.** Handlers that build a tree on a stack, and the printer that goes the other way. Modules `Xml` and
  `XmlDoc` (a lexer and a document builder for the XML that the programs write; XML 1.0, sections 2.7, 2.11, 3.1 and
  3.3.3), `PhpXml`, `PhpRoundTrip`, `PhpChunks`.
* **Client and daemon.** Commands, the frame splitter over a 2048-byte buffer, tree extraction, dispatch through the
  method table, the cache, and the status protocol over two byte streams. Modules `ExtractNode`, `Commands`,
  `Framing`, `MessageLayer`, `StatusMessages`, `StatusProtocol`.
* **Data streams.** The per-sensor throttle and the restartable database merge. Modules `Throttle`, `Merge`.
* **Codecs.** The Outback packet checksum and the one-wire sensor id. Modules `Checksum`, `OneWire`.

Code that changes state step by step is a class or a method with loops, proved against a function of the same
meaning; the properties are lemmas about those functions. Run `dafny verify dfyconfig.toml`.

## How the inverter is modelled

The host keeps a tree of menu items, and the inverter has a menu of its own. `Menu.World` holds both, and everything
else outside the program: which key presses the inverter obeys, what its meters measure at each moment, and the C
library's `atof`. Time counts key presses. As `doc/C/xantrex.xml:53-73` describes, a line shows the item's label and
then repeats the readings two blanks apart, and an inverter may ignore keys. L and R change the heading and land on the
heading itself (item 0); D and U move within it and stop at its ends. Every theorem quantifies over all worlds; its
`requires` says how many keys must be obeyed and which labels must be told apart.

`DefaultMenu` holds every call by which the program builds its default tree, the tree that these calls store, and the
tree that their arguments ask for. The two differ: see the first point below. `DefaultMenu.Shipped` is a host with the
stored tree, `DefaultMenu.AsMeant` one with the intended tree, each with an inverter whose menu shows the headings and
the meters menu under the labels of the calls.

## What the proofs found

* The overload of `SetItem` without an abbreviation drops the item index, and the one for lines of information goes by
  it. Every such line is stored with the indices of its heading, and `GetItem` never finds it. `PollMeters(n)` needs the
  line (4,10) from the second loop on: for n >= 2 `GetItem` runs off the end of the table. `PollMeters` is defined exactly
  for n <= 1; the program calls it with 1.
* Two items of the default tree are set as headings with the indices (11,0); the second one is never found either, and
  the other items of that menu are one place off.
* `MenuItemMinus` does not recover when the inverter is *ahead*, except at the last item of a heading: the cursors meet
  for a lag of 0 to 4.
* `GotoMenuStart` looks for "Inverter" on the display. From the right of heading 9 it stops at "Inverter Setup". On
  any other item with that word, such as the inverter's amps and volts in the meters menu, it stops in place when the
  first key is ignored, and the host is wrong about the heading from then on. Otherwise ignored keys only cost tries.
* The heading keys of `GotoMenuItem` are not retried: the inverter ends one heading short for each one ignored.
* `GotoMenuItem` leaves the inverter one item behind the host.
* `MenuItemPlus` at the first item of a heading parts the cursors: the inverter goes on to the heading, and the host stays.
* When too many keys are ignored the host goes on without its label, and files the reading of the item that the
  inverter shows under the field of the item it asked for.
* With the intended indices, `PollMeters` would begin its loops at items 1, 2, 3, 3, 3, ..., and read the load in the
  first two loops only. Going up, a four-character substring is compared with the five characters of "Load ", so the load
  is never stored. Both AC input voltages are always 0: their items are integers, but the float value is stored.
* The display parser misreads every value above 9999, and every negative value reads as 0.
* `parse` in `web/xml.php` tests the result of `xml_parse` the wrong way round and ends the script when parsing
  succeeded.
* `tagData` tests the trimmed text for truth, so the chunk "0", with or without blanks around it, is dropped like a blank
  one; every other digit is kept. The parser may report text in pieces: a line end that is reported by itself is lost.
* The client's method table has no entry for "sysversion", so the reply to that request cannot be filed.
* A read that breaks off inside a message delivers the part as a message. Messages that arrive by two reads are put
  together right exactly when the first read ends with a message.
* The code for leftover text skips the first character of the message behind it, and is not reached when the rest of the
  message comes alone with its NUL. It works exactly when the rest comes alone without one.
* The throttle looks at the seconds of a time difference and not at its days. It records what is intended except for
  readings a day or more after a record whose seconds are within the interval; those are dropped.
* A merge that stops between two rows of the same time loses the second one: no later run selects it. The UNIQUE time
  stamp in `powerguru.sql` rules such rows out.
* The Outback checksum drops every zero of the field and not only the leading ones, as its comment says: packets whose
  sum has a zero digit are always refused, and wrongly placed zeros are accepted.

## Model

| member | source | states |
|---|---|---|
| Display.ReadValue | devices/xantrex-trace.cc:481-525 | The search loop and the substring of `GetValue`: the first of " 0" to " :" that occurs, and the wrap-around of an unsuccessful search |
| Display.SetDisplayIsLine | lib/menuitem.cc:327-348 | The padded print of one number is the display line that carries that one reading |
| Display.ValueColumn | lib/menuitem.cc:327-348 | The value stands in column 39, or one blank behind a text of more than 34 characters, with two digits at least and the sign of a negative number in front |
| Display.BodyMarks | devices/xantrex-trace.cc:494-500 | In a run of readings a blank followed by a digit stands only where a reading starts |
| Display.SearchOfLine | devices/xantrex-trace.cc:494-500 | On a line behind any text without a blank followed by a digit, the search stops at the first reading among those with the lowest leading digit |
| Display.ColonIsFound | devices/xantrex-trace.cc:494-500 | Without a blank in front of a digit the search goes on to " :", the last string it tries |
| Display.GetValueOfLine | devices/xantrex-trace.cc:502-507 | What is cut out: that reading with the blank behind it, or four characters at most when it is the last |
| Display.IntReadingIsShown | devices/xantrex-trace.cc:460-466 | From a line that repeats several readings, the integer read is one of those shown |
| Display.TruncatedReading | devices/xantrex-trace.cc:460-507 | A value above 9999 is read as something below 10000 |
| Display.NegativeReading | devices/xantrex-trace.cc:460-507 | A negative value is read as 0 |
| Display.DisplayRoundTrip | lib/menuitem.cc:327-348 | Print then parse gives the number back if and only if it is between 0 and 9999, for every label without a blank followed by a digit |
| Menu.GetItem | devices/xantrex-trace.cc:1253-1272 | The row-by-row search is the specification search: first item with both indices |
| Menu.LookupIsFirst | devices/xantrex-trace.cc:1253-1272 | In any tree the item found is the first one, row by row, with both indices; nothing is found if and only if no item has them |
| Menu.MenuItemObject.SetAll | lib/menuitem.cc:125-136 | All fields as given |
| Menu.MenuItemObject.SetShort | lib/menuitem.cc:119-123 | Without an abbreviation the item is stored with item index 0, whatever was given |
| Menu.MenuItemObject.SetHead | lib/menuitem.cc:139-146 | A heading is stored at (x,0) |
| Menu.MenuItemObject.SetInfo | lib/menuitem.cc:149-156 | A line of information asked for at (x,y) is stored at (x,0) |
| Menu.MenuItemObject.SetValue | lib/menuitem.cc:158-205 | An item with a value is stored where it was asked for |
| Menu.LookupFinds | devices/xantrex-trace.cc:1253-1272 | In a tree whose rows hold only their own heading, and for a row whose items are stored in order of their indices, the search finds exactly the item at that position |
| Menu.ShowsOwnText | doc/C/xantrex.xml:53-63 | A display line holds the text of the item it belongs to |
| Menu.WordIsInText | devices/xantrex-trace.cc:418-425 | A word without blanks and digits is on a line if and only if it is in the text of the item |
| Menu.ShowsNoForeign | devices/xantrex-trace.cc:219-227 | A display line does not hold a label with a letter foreign to the item's own label and to numbers |
| Navigation.SeekDown | devices/xantrex-trace.cc:214-227 | The downward retry loop stops at the target if enough keys are obeyed; otherwise it ends as many items further as keys were obeyed |
| Navigation.SeekUp | devices/xantrex-trace.cc:254-266 | The same for the upward loop |
| Navigation.MinusAbsorbsLag | devices/xantrex-trace.cc:194-231 | One `MenuItemMinus` with lag L, up to the last item of the inverter's own menu: in sync if L + 1 of the five keys are obeyed, so 4 - L ignored keys are tolerated |
| Navigation.PlusAbsorbsLead | devices/xantrex-trace.cc:233-272 | One `MenuItemPlus` away from the first item absorbs a lead under the same condition |
| Navigation.MinusStabilises | devices/xantrex-trace.cc:194-231 | n calls shorten any lag by 4n and never below 0: self-stabilisation from every finite lag |
| Navigation.PlusStabilises | devices/xantrex-trace.cc:233-272 | n calls upward shorten any lead by 4n |
| Navigation.PlusAtTheTop | devices/xantrex-trace.cc:250-266 | At the first item or the heading: the host stays; from the first item the inverter goes on to the heading if and only if it obeys the first key |
| Navigation.MissingLabelKeys | devices/xantrex-trace.cc:214-227 | Where the host has no label the downward loop presses all five keys and the upward loop one |
| Navigation.HeadingKeysExactly | devices/xantrex-trace.cc:130-191 | Where host and inverter are after L and R from any common position: together if and only if the key is obeyed and R is not pressed at the last heading, or L changes nothing on either side |
| Navigation.SeekRunsAway | devices/xantrex-trace.cc:214-227 | From the target or beyond it the downward loop presses all its keys and the inverter runs on |
| Navigation.SeekAtEnd | devices/xantrex-trace.cc:214-227 | At the last item of the inverter's heading the downward loop with that target stops in sync |
| Navigation.MinusSyncsExactly | devices/xantrex-trace.cc:194-231 | With all keys obeyed the cursors meet after one call if and only if the lag is between 0 and 4, or the inverter is already at the last item of its own heading and that is the target |
| Navigation.SeekStartEnds | devices/xantrex-trace.cc:418-425 | Where the search for the start ends, from any heading and item and with any keys ignored |
| Navigation.GotoMenuStartSyncs | devices/xantrex-trace.cc:413-432 | With any keys ignored: inverter and host meet at the start if and only if `StartIsFound` holds, which `SearchReachesExactly` says in numbers, stopping in place included |
| Navigation.SearchReachesExactly | devices/xantrex-trace.cc:413-432 | How far the search reaches: from heading h, unless it stops in place, the start is found if and only if h is 1 to 9 and at least max(1, h - 1) of the next 22 keys are obeyed |
| Navigation.SearchFindsStart | devices/xantrex-trace.cc:413-432 | With every key obeyed the search ends at heading 1 with the cursors together, from any item of headings 1 to 9 |
| Navigation.LostKeyStrandsStart | devices/xantrex-trace.cc:418-431 | The failing case: at any other item that has "Inverter" in its label one ignored first key stops the search in place |
| Navigation.HeadingsPlusMoves | devices/xantrex-trace.cc:590-592 | Where the heading keys lead when any of them are ignored: they are not retried |
| Navigation.GotoFirstItemExactly | devices/xantrex-trace.cc:580-609 | `GotoMenuItem(mh, 1)` with any keys ignored: same heading and a lag of 1 if and only if the obeyed heading keys lead from where the search ended to that heading |
| Navigation.ItemsMinusMoves | devices/xantrex-trace.cc:594-596 | From a common position one obeyed key of five per call keeps the cursors together over any number of calls |
| Navigation.FromStartLagsByOne | devices/xantrex-trace.cc:589-606 | The two loops of `GotoMenuItem` from the start, with item keys lost: same heading, inverter one item behind |
| Navigation.GotoMenuItemLagsByOne | devices/xantrex-trace.cc:580-609 | `GotoMenuItem` from anywhere, with search and item keys lost: if the start is found and the heading keys are obeyed, it ends at the heading asked for with a lag of exactly 1 |
| Polling.DecodesItem | devices/xantrex-trace.cc:641-650 | The value decoded from the line of a number item is one that this item measured at that moment |
| Polling.DownStepReads | devices/xantrex-trace.cc:635-695 | A step down on a number item stores its reading in the item's own field and changes no other |
| Polling.UpStepReads | devices/xantrex-trace.cc:707-764 | The same for a step up, with the frequency copied from the way down |
| Polling.LabelsDecide | devices/xantrex-trace.cc:657-690 | For any label: which of its words at which place sets which field on the way down; an exception if and only if the label has fewer than eight characters |
| Polling.LabelsDecideUp | devices/xantrex-trace.cc:725-760 | For any label: on the way up the load is never set, and the frequency is the one read going down |
| Polling.ShortDisplays | devices/xantrex-trace.cc:635-640 | The way down skips a display of at most one character, the way up only an empty one |
| Polling.DownPass | devices/xantrex-trace.cc:633-696 | The way down from item c: cursors together from the first step on; if it stays on the number items it reads all it passes, otherwise it reads all up to 9 and stops at the INFO item 10, which the host must find |
| Polling.UpPass | devices/xantrex-trace.cc:706-765 | The way up: cursors together, every item passed is recorded |
| Polling.LoopPolls | devices/xantrex-trace.cc:629-767 | One loop leads from loop head k to loop head k + 1 of 1, 2, 3, 3, ... and adds two records; all loops but the first need the INFO item |
| Polling.LoopsPoll | devices/xantrex-trace.cc:629-767 | One loop, and with the INFO item any number of loops, keeps the cursors together; loop k's records were read within loop k's time |
| Polling.PollMetersIsSafe | devices/xantrex-trace.cc:613-779 | With one of any five keys obeyed and a few more at the start, for at most one loop, and with the INFO item for any number n: no exception, 2n records, every stored value measured by the item of its field, cursors together at the end if the last two keys are obeyed |
| Polling.PollsFromAnyUserMenu | devices/xantrex-trace.cc:613-779 | With every key obeyed one loop polls well from any item of headings 1 to 9 |
| Polling.DownThrows | devices/xantrex-trace.cc:633-696 | Without an item 10 in the host's tree a way down past the number items runs off the end of the table |
| Polling.SecondLoopThrows | devices/xantrex-trace.cc:629-767 | So the second loop is undefined |
| Polling.PollsOnceExactly | devices/xantrex-trace.cc:613-779 | Without that item, for every number n of loops: `PollMeters` is defined if and only if n <= 1, and then all that PollMetersIsSafe says holds |
| Polling.ReadsOwnFieldExactly | devices/xantrex-trace.cc:635-695 | A step down with any lag and any keys ignored: the reading is that of the item the inverter reached, it is filed under the host's item, and these are the same item if and only if lag + 1 of the five keys are obeyed |
| Polling.LostKeysMisfile | devices/xantrex-trace.cc:635-695 | The failing case: with five ignored keys the battery voltage is filed as the temperature-compensated one |
| Polling.LoadOnlyInFirstLoops | devices/xantrex-trace.cc:658-662 | The load is recorded by the first two loops going down and by no other; AC inputs are always 0; the frequency and the battery voltage are always read |
| DefaultMenu.SetDefaultValues | devices/xantrex-trace.cc:813-1185 | The tree built is exactly what the calls store. Of the 21 rows of calls: each is for its own heading, the heading first; all but row 11 ask for the indices in order; row 4 is exactly `MetersRow`, and its labels meet the conditions of polling |
| DefaultMenu.StoredLookup | devices/xantrex-trace.cc:1253-1272 | What `GetItem` finds in the tree that is stored, for all indices: no line of information, and row 11 one place off |
| DefaultMenu.InfoIsNeverFound | lib/menuitem.cc:149-156 | Every line of information is stored at the indices of its heading, where the heading itself is found; no indices find the line |
| DefaultMenu.MeantLookup | devices/xantrex-trace.cc:813-1185 | With the indices that the calls ask for, `GetItem` would find every item of every row but row 11 at its place |
| DefaultMenu.DuplicateIsHidden | devices/xantrex-trace.cc:1009-1020 | Row 11 has a second heading item with the indices (11,0), and no indices find it |
| DefaultMenu.MetersRowFacts | devices/xantrex-trace.cc:877-917 | In the meters menu each label passes exactly the test for its own field, and no label occurs in another item's line |
| DefaultMenu.MetersApart | devices/xantrex-trace.cc:877-917 | Any two of the first eleven meters labels differ by a letter that the other one does not have |
| DefaultMenu.FactsStartMenu | devices/xantrex-trace.cc:820-1185 | Of all headings exactly 1 and 9 have "Inverter" in their names on an inverter that agrees with the calls |
| DefaultMenu.FactsStoredMeters | devices/xantrex-trace.cc:877-917 | The stored tree meets what the number items 2 to 9 rely on, and has no item (4,10) |
| DefaultMenu.FactsMeantMeters | devices/xantrex-trace.cc:877-917 | With the intended indices the default tree meets what any number of loops relies on |
| DefaultMenu.DefaultPolling | devices/xantrex-trace.cc:613-779 | The polling theorem for the stored tree, for every number n of loops and without conditions on labels: defined if and only if n <= 1, and safe then |
| DefaultMenu.DefaultPollsOnce | devices/xantrex-trace.cc:1625 | As the program runs: with every key obeyed `PollMeters(1)` on the stored tree polls well from any item of headings 1 to 9 |
| DefaultMenu.TwoLoopsFail | devices/xantrex-trace.cc:613-779 | The failing input: `PollMeters(2)` |
| DefaultMenu.MeantPolling | devices/xantrex-trace.cc:613-779 | With the indices that the calls ask for, polling is safe for any number of loops |
| DefaultMenu.DefaultStabilises | devices/xantrex-trace.cc:194-231 | Self-stabilisation in the meters menu of the stored tree, with all keys obeyed: n calls down to an item below 10 shorten any lag by 4n |
| DefaultMenu.LostKeyMissesMeters | devices/xantrex-trace.cc:580-609 | A failing run of the shipped tree: the inverter shows its own amps or volts and ignores the first key; `GotoMenuItem(4, 1)` leaves it at heading 7 |
| XantrexUIClass.XantrexUI.constructor | devices/xantrex-trace.cc:44-47 | A new interface holds the tree that the default calls store; the host's cursor is not set |
| XantrexUIClass.XantrexUI.GetLabel | devices/xantrex-trace.cc:87-96 | The label of the item at the host's cursor |
| XantrexUIClass.XantrexUI.MenuHeadingMinus | devices/xantrex-trace.cc:130-158 | New state of host and inverter after the L key |
| XantrexUIClass.XantrexUI.MenuHeadingPlus | devices/xantrex-trace.cc:160-191 | New state after the R key |
| XantrexUIClass.XantrexUI.MenuItemMinus | devices/xantrex-trace.cc:194-231 | The retry loop is the bounded search that the navigation lemmas are about |
| XantrexUIClass.XantrexUI.MenuItemPlus | devices/xantrex-trace.cc:233-272 | The same upwards |
| XantrexUIClass.XantrexUI.GotoMenuStart | devices/xantrex-trace.cc:413-432 | The loop of 22 tries is the search that `SearchReachesExactly` is about, with the reset of the host's cursor |
| XantrexUIClass.XantrexUI.HeadingsPlus | devices/xantrex-trace.cc:590-592 | The first loop of `GotoMenuItem` presses R mh - 1 times |
| XantrexUIClass.XantrexUI.ItemsMinus | devices/xantrex-trace.cc:594-596 | The second loop calls `MenuItemMinus` mi - 1 times |
| XantrexUIClass.XantrexUI.GotoMenuItem | devices/xantrex-trace.cc:580-609 | Start, both loops, and the cursor assignment behind them |
| XantrexUIClass.XantrexUI.PollDown | devices/xantrex-trace.cc:633-696 | The downward loop with its break at an INFO item and the exception of a short label |
| XantrexUIClass.XantrexUI.StepUp | devices/xantrex-trace.cc:707-764 | One turn of the upward loop |
| XantrexUIClass.XantrexUI.PollUp | devices/xantrex-trace.cc:706-765 | The upward loop |
| XantrexUIClass.XantrexUI.PollMeters | devices/xantrex-trace.cc:613-779 | All loops, the collected records, and the two heading keys behind them |
| CleanUp.CleanUpData | devices/xantrex-trace.cc:785-811 | The character loop is the one-pass function |
| CleanUp.KeepsText | devices/xantrex-trace.cc:785-811 | No line break remains, and all other characters except blanks remain in order |
| CleanUp.OnePassThins | devices/xantrex-trace.cc:798-804 | On text without line breaks one pass leaves no two blanks together |
| CleanUp.FixedWhenClean | devices/xantrex-trace.cc:785-811 | Clean text is a fixpoint |
| CleanUp.TwoPassesSettle | devices/xantrex-trace.cc:785-811 | Idempotent on text without line breaks; two passes always reach a fixpoint |
| CleanUp.OnePassIsStripCollapseExactly | devices/xantrex-trace.cc:785-811 | One pass equals strip-then-collapse if and only if no two blanks are separated by line breaks alone; it never leaves less |
| Xml.TakeAttrsOf | web/xml.php:174-184 | Printed attributes read back, with any text behind the tag |
| Xml.LexOpen | web/xml.php:172-190 | A printed start tag lexes to one open event |
| Xml.LexEmpty | web/xml.php:196 | A printed empty-element tag lexes to an open and a close event |
| Xml.LexClose | web/xml.php:194 | A printed end tag lexes to one close event |
| Xml.LexText | lib/msgs.cc:921-925 | Plain text lexes to one character event |
| Xml.LexRefuses | lib/xml.cc:154-158 | Text with "]]>" or a character that XML forbids makes the parser refuse the document |
| Xml.LexCData | web/xml.php:187 | A CDATA section lexes to its text |
| XmlDoc.LexWrite | lib/msgs.cc:918-925 | The lexer reports exactly the events of a written tree and goes on with what follows |
| XmlDoc.BuildEvents | lib/xml.cc:138-165 | Building undoes the events of any forest |
| XmlDoc.ParseWrite | lib/xml.cc:138-165 | Writing and parsing any plain element gives it back, with or without a line feed behind it |
| PhpXml.Xml2Array.tagOpen | web/xml.php:141-144 | Pushes an entry with name and attributes |
| PhpXml.Xml2Array.tagData | web/xml.php:146-155 | Adds text that passes the trim test to the last entry; `DroppedExactly` says what that test drops |
| PhpXml.DroppedExactly | web/xml.php:146-155 | The trim test drops a text if and only if it is made of the six blanks of `trim` alone, or of a zero between such blanks |
| PhpXml.TagDataAppendsExactly | web/xml.php:146-155 | The text handler in full: it appends the text to the data of the entry on top, unless the text is such a one, and changes nothing else |
| Text.UpperLetters | web/xml.php:121-140 | Upper case letter by letter: a to z and nothing else changes |
| PhpXml.Xml2Array.tagClosed | web/xml.php:157-160 | Copies the last entry to the children of the one before, also at index -1, and pops |
| PhpXml.Xml2Array.parse | web/xml.php:121-140 | The handlers run over the events in document order; the script ends when the text was well-formed, and the array is returned when it was not |
| PhpXml.HandlersAreStackOperations | web/xml.php:141-160 | On an array that holds a stack the handlers are push, edit and pop; at the root the entry at index -1 is the one popped |
| PhpXml.ElementAppends | web/xml.php:141-160 | On any non-empty stack the events of any element append its node to the children of the top and change nothing else |
| PhpXml.ContentAppends | web/xml.php:141-160 | The same for any content: text is joined, children appended in order |
| PhpXml.DocumentBuilds | web/xml.php:157-160 | From the empty array the events of a document leave exactly its root at index 0 |
| PhpXml.ChunksJoin | web/xml.php:146-155 | The text collected from chunks is the whole text if and only if every non-empty chunk passes the trim test |
| PhpRoundTrip.LexPrint | web/xml.php:163-202 | The printer's output lexes to the events of the document that the tree stands for |
| PhpRoundTrip.PrintParse | web/xml.php:121-202 | Printing and parsing any printable tree gives the tree its document builds |
| PhpRoundTrip.BuiltIsSame | web/xml.php:141-202 | That tree is the printed one if and only if the tree is canonical |
| PhpRoundTrip.BuiltIsCanonical | web/xml.php:141-160 | Whatever the handlers build is canonical |
| PhpRoundTrip.RoundTripExactly | web/xml.php:163-202 | With data reported in one piece the round trip gives [tree] if and only if names are in upper case, no node has both data and children, and data passes the trim test |
| PhpRoundTrip.DigitSurvivesExactly | web/xml.php:146-155 | A tree with one digit as data comes back if and only if the digit is not zero |
| PhpRoundTrip.DataHidesChildren | web/xml.php:185-197 | A node with data is printed without its children, and empty data is printed as none |
| PhpChunks.FindCutting | web/xml.php:121-140 | Events that are a document's when neighbouring text is joined are those of the document with its text cut somewhere |
| PhpChunks.CuttingBuilt | web/xml.php:141-160 | The tree built from a document whose text is reported in any pieces is the one it stands for if and only if that tree has the shape and every piece is empty or passes the trim test |
| PhpChunks.RoundTripInPieces | web/xml.php:121-202 | The round trip for every way of reporting the text in pieces: [tree] if and only if names are in upper case, no node has both data and children, and every piece of data passes the trim test |
| PhpChunks.LineEndIsLost | web/xml.php:146-155 | The failing case: a line end reported by itself |
| PhpRoundTrip.BuiltIsPrintable | web/xml.php:141-202 | Whatever is built from a printed tree can be printed again |
| PhpRoundTrip.PrintParseSettles | web/xml.php:121-202 | A second round trip changes nothing, for every printable tree |
| ExtractNode.ExtractNode | lib/xml.cc:53-134 | The walks over properties and siblings: name, value up to the first line feed, attributes, element children in order; undefined if and only if an attribute in the element or within it has an empty value |
| ExtractNode.AttributesAre | lib/xml.cc:66-82 | The attributes of an extracted element: exactly its attribute names, each with the value of the last attribute of that name |
| ExtractNode.ContentIsReported | lib/xml.cc:89-96 | The content of a node is the character data that a parser reports for it, in order, comments left out |
| ExtractNode.ValueIs | lib/xml.cc:89-109 | The value is the first line of the text of the first child, and of all the text within it when it is an element |
| ExtractNode.SiblingInsertion | lib/xml.cc:85-131 | A text or comment inserted behind the first child changes nothing; in front of it, it changes the value only |
| ExtractNode.ExtractLeaf | lib/xml.cc:89-109 | An element with only text extracts to its name and first line |
| Commands.CreateCommand | lib/commands.cc:74-131 | The step-by-step string is the written tree of the command; a RESULT is appended without the wrapper |
| Commands.WriteCommand | lib/commands.cc:80-128 | The text of every command, spelled out |
| Commands.CommandTexts | lib/commands.cc:80-128 | The text of LIST, POLL, NOP, RESULT and EVENT, each with its own tags |
| Commands.HeloTexts | lib/commands.cc:105-124 | The text of a HELO with a host name alone, and with a user behind the first blank |
| Commands.ExtractHelo | lib/xml.cc:53-134 | The tree extracted from a HELO: a helo whose children are the host name and the user, each up to a line feed |
| Commands.HeloArrives | lib/commands.cc:105-124 | A HELO parses to its tree, and the daemon stores the first line of the text before the first blank |
| Commands.OnlyHeloHasHost | daemon/threads.cc:188-191 | A host is stored only from a helo element: the value of its first child |
| Commands.HeloRefused | lib/xml.cc:154-158 | A HELO with text that XML forbids is refused as a whole |
| Commands.HostArrivesExactly | daemon/threads.cc:188-191 | For every host and user without markup: the stored host is the one sent if and only if it has no blank and no line feed, and neither has text that XML forbids |
| Framing.Tcpip.Read | lib/tcpip.cc:473-475 | A zeroed buffer with the data at its start |
| Framing.Tcpip.StrLen | lib/tcpip.cc:494 | The C string at a position within the buffer |
| Framing.Tcpip.AnyData | lib/tcpip.cc:473-582 | The messages and the leftover of one read, ended by a NUL or not, with or without leftover text, short cut included |
| Framing.Tcpip.Complete | lib/tcpip.cc:520-582 | The turn with leftover text: it goes in front of the first text, the character behind its NUL is skipped, and the loop goes on from there |
| Framing.Tcpip.TakeMessages | lib/tcpip.cc:520-575 | The loop takes the texts that start with '<' and stops at the first one that does not |
| Framing.Tcpip.SplitMessages | lib/tcpip.cc:520-582 | From any position of the buffer the loop delivers the messages up to the first text without '<', the remainder is the text behind that one, and the loop stays within the buffer |
| Framing.TerminatedFrames | lib/tcpip.cc:473-475 | A text that the data breaks off counts as a frame like the others |
| Framing.ScanFromIsScan | lib/tcpip.cc:520-582 | The loop over the zeroed buffer is the scan of the frames of the data |
| Framing.PartialIsDelivered | lib/tcpip.cc:520-582 | A partial message at the end of a read is delivered as if it were whole |
| Framing.TwoReadsExactly | lib/tcpip.cc:473-582 | Messages sent in one text and received by two reads, cut anywhere, arrive if and only if the first read ends with the NUL of a message |
| Framing.LeftoverIsCompletedExactly | lib/tcpip.cc:521-537 | A leftover text is completed by the next read, and the messages behind it arrive, if and only if that read holds the rest alone, without a NUL |
| Framing.NulIsShortCut | lib/tcpip.cc:499-516 | With its NUL the rest takes the short cut: it is delivered by itself and the leftover text stays |
| Framing.TakesRest | lib/tcpip.cc:533 | The first message behind the rest loses its first character |
| Framing.FramesOfWire | lib/msgs.cc:437 | Cutting at NULs undoes the NUL-terminated concatenation |
| Framing.ScanAll | lib/tcpip.cc:546-565 | Everything is delivered and nothing kept if and only if every text starts with '<' |
| Framing.ScanIs | lib/tcpip.cc:520-582 | The loop for any texts: it delivers those in front of the first that does not start with '<', each up to its last line feed, and keeps the text behind that one unless it is empty |
| Framing.ReadSizes | lib/tcpip.cc:473-475 | The reads for which the loop stays within the buffer of 2048 bytes: up to 2045 bytes, or 2046 with a NUL at the end; with leftover text a NUL or at most 2044 bytes |
| Framing.FastPathAgrees | lib/tcpip.cc:499-516 | The short cut for one message agrees with the loop |
| Framing.CutEnds | lib/tcpip.cc:547-550 | Cutting at the last line feed takes off the one appended, and is the identity if and only if there is none |
| Framing.WholeFramesArrive | lib/tcpip.cc:473-582 | A read of whole frames delivers each, cut at its last line feed, and leaves nothing |
| Framing.FramingInverse | lib/tcpip.cc:473-582 | Messages, each with or without a line feed behind it, arrive as sent if and only if those without one hold none |
| MessageLayer.Msgs.Init | lib/msgs.cc:193-272 | The whole method table, and the cache with the daemon's preloaded values |
| MessageLayer.TopEntries | lib/msgs.cc:198-204 | The handlers of powerguru, helo, client and server in the whole table |
| MessageLayer.MeterEntries | lib/msgs.cc:207-219 | The handlers of the meter tags |
| MessageLayer.StatusEntries | lib/msgs.cc:222-227 | The handlers of the status tags |
| MessageLayer.ConfigEntries | lib/msgs.cc:230-236 | The handlers of the configuration tags |
| MessageLayer.CommandEntries | lib/msgs.cc:239-251 | The handlers of the command tags |
| MessageLayer.PreloadedValues | lib/msgs.cc:255-270 | The keys that the daemon loads, and their values |
| MessageLayer.HandlersAreStatusTable | lib/msgs.cc:198-250 | The table serves the status tags and has no entry for "sysversion" |
| MessageLayer.Msgs.RequestCreate | lib/msgs.cc:785-816 | The body is the written request and a NUL; `RequestTexts` spells the five requests |
| MessageLayer.Msgs.ResponseCreate | lib/msgs.cc:891-928 | The body is the written response and a NUL |
| MessageLayer.Msgs.StatusProcess | lib/msgs.cc:1003-1061 | The daemon writes one text, empty for an unknown tag; the client adds to its cache except for "status" |
| MessageLayer.Msgs.Process | lib/msgs.cc:446-476 | The handler of the tag, then the children in order |
| MessageLayer.RequestIs | lib/msgs.cc:785-816 | The request is the header with the version, and the tag's name between status tags |
| MessageLayer.RequestTexts | lib/msgs.cc:785-816 | The text of each of the five requests, with its own tag |
| MessageLayer.ResponseIs | lib/msgs.cc:891-928 | The response, spelled out |
| MessageLayer.ResponseTexts | lib/msgs.cc:891-928 | The text of a response of each of the six types |
| MessageLayer.ReplyIsEmptyExactly | lib/msgs.cc:1015-1033 | The daemon writes an empty text if and only if the value is none of the five tags |
| StatusMessages.RequestFrame | lib/msgs.cc:785-816 | Every status request is a frame without line feed and parses to its tree |
| StatusMessages.HeaderHasVersion | lib/msgs.cc:1189-1193 | The header of a received request has one attribute, "version", with the sender's version |
| StatusMessages.AnswerFrame | lib/msgs.cc:891-928 | Every status answer is a frame without line feed and parses to its tree |
| StatusMessages.DaemonAnswers | lib/msgs.cc:1015-1033 | A received request makes the daemon write exactly one text, the answer to its tag, and keeps its cache |
| StatusMessages.ClientFiles | lib/msgs.cc:1035-1058 | A received answer makes the client file the daemon's value under the tag's name; undefined for "sysversion" |
| StatusMessages.DaemonRepliesTo | lib/msgs.cc:1015-1033 | The daemon's reply to the text of each of the five requests, with the tag and value spelled out |
| StatusMessages.ClientTakes | lib/msgs.cc:1035-1058 | What the client files for the text of each reply |
| StatusProtocol.LinkIsSound | lib/msgs.cc:785-1061 | The message functions meet what the protocol proof relies on |
| StatusProtocol.AnswersAll | lib/msgs.cc:1003-1033 | All requests of one read are answered in order |
| StatusProtocol.FilesAll | lib/msgs.cc:1035-1058 | All answers of one read are filed in order |
| StatusProtocol.DaemonStepKeeps | lib/msgs.cc:1015-1033 | A daemon step keeps the invariant and moves as many messages to the other stream as it takes |
| StatusProtocol.ClientStepKeeps | lib/msgs.cc:1035-1058 | A client step keeps the invariant |
| StatusProtocol.StepKeeps | lib/msgs.cc:446-476 | Every step keeps the invariant |
| StatusProtocol.RunsAreSafe | lib/msgs.cc:446-476 | The invariant holds in every state of every run |
| StatusProtocol.CacheIsDaemons | lib/msgs.cc:1003-1061 | In every reachable state: sent = in flight + replies in flight + consumed; the client knows a tag if and only if a reply for it was consumed, with the daemon's value; the daemon's cache is unchanged |
| StatusProtocol.ClientCacheIs | lib/msgs.cc:1003-1061 | In every reachable state the client's cache has no other keys than revision, opmode, errormode and warningmode, each one if and only if a reply for it was consumed, with the value "0.0" or "none" |
| Throttle.Rtl433.constructor | python/rtl433.py:55 | Nothing recorded yet |
| Throttle.Rtl433.Handle | python/rtl433.py:61-122 | One batch of lines is the run that the theorems below are about: previous, sensor table and inserted rows |
| Throttle.SensorsDoNotInterfere | python/rtl433.py:61-122 | A sensor's rows in any interleaved stream are those of the single-sensor throttle on its own lines |
| Throttle.OwnSubstreamDecides | python/rtl433.py:61-122 | They equal the rows recorded from its own substream alone |
| Throttle.RecordsMeans | python/rtl433.py:92-97 | The test in plain arithmetic: gap modulo 86400 above the interval, or up to 86400 seconds older |
| Throttle.GapsPassTheTest | python/rtl433.py:92-100 | Every consecutive recorded pair passes the test |
| Throttle.TestIsIntendedExactly | python/rtl433.py:95-97 | For a reading that is not older, the test means "gap above the interval" if and only if the gap is not a day or more with its seconds within the interval |
| Throttle.SampledIsSpaced | python/rtl433.py:88-100 | Whatever the gaps, the recorded samples are a subsequence with all gaps above the interval |
| Throttle.GreedyIsLongest | python/rtl433.py:85-97 | No such subsequence is longer than what the intended throttle records |
| Throttle.SampledIsGreedyExactly | python/rtl433.py:88-100 | For a whole stream and any interval, the throttle records what is intended if and only if no reading is wrapped after its intended record |
| Throttle.OlderIsRecordedExactly | python/rtl433.py:89-97 | A first reading older than the clock is recorded if and only if it is older by a day at most or its seconds exceed the interval |
| Throttle.HeardSamples | python/rtl433.py:89-97 | The readings left out before that leave the rows unchanged |
| Throttle.HeardIs | python/rtl433.py:89-97 | They are the leading ones that are older than the clock and not recorded |
| Throttle.FrequentReadingsNeverWrap | python/rtl433.py:88-100 | Steps below a day less the interval never wrap |
| Throttle.RowsAreALargestChoice | python/rtl433.py:61-122 | For every sensor of every interleaved stream whose own time stamps do not decrease, behind the leading readings that are older than the clock and not recorded: the rows are a spaced choice; the intended one if and only if nothing is wrapped; a largest one if and only if they are as many as intended |
| Throttle.DayWrapDropsReading | python/rtl433.py:95-97 | A reading exactly one day after the last record is dropped |
| Throttle.SensorsAreRegistered | python/rtl433.py:101-109 | A sensor is known after a run if and only if it was known before or a row of it was recorded; what is stored for it is said by the next two |
| Throttle.KnownSensorKeeps | python/rtl433.py:101-108 | A sensor that is known keeps its entry over any run |
| Throttle.NewSensorIs | python/rtl433.py:101-108 | A sensor that becomes known has the model of its first recorded line as alias, and the channel of that line |
| Merge.MergeRun.InsertRows | python/mergedb.py:181-197 | The row loop, stopped anywhere, inserts that prefix in order and skips conflicting keys |
| Merge.InsertsExactly | python/mergedb.py:181-197 | What the row loop leaves, conflicts included: what was there, and of the rows with a key that was not there the first one with each |
| Merge.KeysStayUnique | python/mergedb.py:193-197 | Keys of the destination stay unique whatever is inserted |
| Merge.InsertsMissing | python/mergedb.py:193-197 | Rows of the source that are missing are inserted without conflict |
| Merge.CompleteRunMergesExactly | python/mergedb.py:152-197 | A complete run makes the tables equal if and only if all missing rows were newer than all present ones |
| Merge.StoppedRunKeepsExactly | python/mergedb.py:181-197 | A stopped run keeps that condition if and only if it did not stop between rows of the same time |
| Merge.GrowthKeepsExactly | python/mergedb.py:156-162 | Growth of the source keeps it if and only if the new rows are newer than all merged ones |
| Merge.EventKeeps | python/mergedb.py:152-197 | Each event of a history keeps the condition |
| Merge.HistoryKeeps | python/mergedb.py:152-197 | Every moment of every history meets it |
| Merge.ResumeCompletes | python/mergedb.py:152-197 | After any history of stopped runs and growth one complete run makes the tables equal, and any further run selects nothing |
| Merge.TimestampKeyHasNoTies | powerguru.sql:135-143 | With the time stamp as key no run can stop between rows of the same time |
| Merge.TimedResumeCompletes | powerguru.sql:135-143 | Crash and resume for tables keyed by time stamp, with runs that stop anywhere |
| Merge.TieCutPassesOver | python/mergedb.py:181-197 | A run that stops between rows of the same time leaves the second one missing behind the first |
| Merge.PassedOverForGood | python/mergedb.py:156-162 | A row that is missing although one as new was merged stays missing over every later history |
| Checksum.ChecksumField | devices/outbackpower.cc:605-620 | The digit array and the base-0 `strtol`: the decimal value of the field without its zeros |
| Checksum.CalcChecksum | devices/outbackpower.cc:593-642 | The summing loop and the comparison: accepted if and only if the sum is the value of the field |
| Checksum.WeightIs | devices/outbackpower.cc:622-632 | What a character adds to the sum: separators nothing, digits their value, the addresses A to K 17 to 27, bytes above 127 a negative number |
| Checksum.NoZeroIsDecimal | devices/outbackpower.cc:606-620 | Without zeros `strtol` never switches to octal or hexadecimal, which is why the loop drops them |
| Checksum.SumFitsTheField | devices/outbackpower.h:101-153 | For every packet in the declared layout the sum is between 0 and 297, and 297 is attained |
| Checksum.SubstitutionIsCaughtExactly | devices/outbackpower.cc:622-632 | One replaced character of an accepted packet is missed if and only if it weighs the same |
| Checksum.SubstitutionIsCaught | devices/outbackpower.cc:622-632 | Replacing a summed character by another summed one is always caught |
| Checksum.ExchangeIsMissed | devices/outbackpower.cc:622-632 | Exchanging two characters is never caught |
| Checksum.AcceptedFieldsExactly | devices/outbackpower.cc:605-641 | Exactly the fields that are the decimal form of the sum with zeros strewn in anywhere are accepted, and only if the sum has no zero digit |
| Checksum.CorrectPacketsAcceptedExactly | devices/outbackpower.cc:605-641 | A correctly summed packet is accepted if and only if its sum is 0 or has no zero digit |
| Checksum.ZeroDigitIsAlwaysRefused | devices/outbackpower.cc:605-641 | A packet whose sum has a zero digit is refused with every checksum field |
| Checksum.StrippingLeadingZerosIsExact | devices/outbackpower.cc:605-607 | Dropping leading zeros only, as the comment says, would accept exactly the correctly summed packets |
| OneWire.StollOfHex | devices/onewire.cc:216 | On hexadecimal digits `stoll` gives their value, and throws without digits or beyond 63 bits |
| OneWire.ReverseIsPairsReversed | devices/onewire.cc:218 | Reversing the bytes of a number reverses the digit pairs of its text, for any number of bytes |
| OneWire.PrintParsed | devices/onewire.cc:216-219 | Printing a parsed text at its own width gives it back in upper case |
| OneWire.IdIsReversed | devices/onewire.cc:216-219 | For every hexadecimal id: its twelve low digits, zero-filled, byte pairs reversed, upper case |
| OneWire.IdTwice | devices/onewire.cc:216-219 | Twelve digits give twelve digits, and converting twice gives the upper-cased original |
| OneWire.SameIdExactly | devices/onewire.cc:216-219 | Two ids are stored under the same id if and only if they agree in their twelve low digits |

## Left out

* Sockets, serial ports, clocks, databases, logging, web pages, process spawning and option parsing: inputs and
  outputs of these are parameters of the model.
- Framing.Tcpip.AnyData: reads of a size at which the loop looks beyond the buffer: the full size without a NUL at its
  end, and with leftover text one byte less without any NUL. The size of the packets that are allocated is an
  uninitialised variable in the source. The leftover text belongs to one splitter; in the source it is shared by all.
  `writeNet` after a short write is not modelled.
- Framing.Tcpip.Complete: the same sizes.
- PhpRoundTrip.RoundTripExactly: trees whose attribute values need no escaping and whose data has no "]]>", no
  carriage return and no character that XML forbids; the printer escapes nothing.
- ExtractNode.ExtractNode: the extracted tree is a value and not a mutable object.
- Commands.HeloArrives: the NUL padding of the daemon's receive buffer is not passed to the parser.
- MessageLayer.Msgs.Process: handlers for meters, commands, configuration and helo, and the lookup of a tag that is not
  in the table, which runs off the end of `methodGet`, make the outcome undefined. String keys are compared by
  content. `cacheGet` is not modelled.
- StatusProtocol.CacheIsDaemons: the four tags revision, opmode, errormode and warningmode; "sysversion" has no
  handler in the client.
- Throttle.Rtl433.Handle: a temperature that is no number (scale F) and the conflict clause of the insert are not
  modelled. Time stamps are whole seconds or unreadable.
- Merge.CompleteRunMergesExactly: the default run, without start and end options, with whole-second time stamps and
  one abstract key per row.
- DefaultMenu.SetDefaultValues: the aliases and default values of the items.
- XantrexUIClass.XantrexUI.ReadSerial: always returns a whole line. The source reads at most 100 bytes and erases the
  display when there are none.
- Menu.GetItem: a missing item, where the source dereferences an end iterator, gives no item. In `MenuItemMinus` and
  `MenuItemPlus` it gives an empty label; in the loops of `PollMeters` it makes the outcome undefined.
- DefaultMenu.DefaultPolling: the inverter's menu is taken to show the headings and the meters menu under the labels of
  the host's calls (`DefaultMenu.InverterAgrees`); for its other menus nothing is assumed.
- Display.DisplayRoundTrip: the integer form of `SetDisplay`. Float readings are texts of up to four characters, and
  `atof` is a parameter.
- Polling.PollMetersIsSafe: readings have at most four digits, as on the inverter's display.
- OneWire.IdIsReversed: temperature values and their scaling are not modelled.
- Checksum.CalcChecksum: a packet shorter than 48 characters, for which the source reads past the end.
* The field decoder of the Outback driver, the Xanbus driver (its navigation repeats the Xantrex code), `GetValues` and
  `GetBoolValue`, and `memadjust` would add only easy members or do not do what their names say.
* XML beyond what the programs write: entities, document types, namespaces and processing instructions.
