# Verified model of QtMail's text rendering and transfer logic

This project models the parts of the Qt Messaging Framework's example mail client
(`examples/qtmail`) and of its allocation benchmark
(`benchmarks/tst_messageserver`) that hold algorithms or state machines, and proves properties
of them for all inputs, all runs and all interleavings. `dafny verify dfyconfig.toml` checks
everything.

## What is modelled

- **Reply levels and groups** (`ReplyLevels`, `ReplyGroups`, `ReplyDisplay`, `Unwrapping`,
  `RowBreaks`). A
  received text is cut into lines; the run of `>` and spaces in front of a line gives its reply
  level. `handleReplies` edits a line while it scans it, groups lines by level (stepping its
  iterator back at every change of level) and displays each group unwrapped.
  `RowBreaks` says in columns which line breaks are kept, and `VisibleReplies` proves what a
  reader sees of the result.
- **Quoting** (`Quoting`). The composer's loop that inserts `> ` behind every newline in place is
  the printer for which `handleReplies` is the parser.
- **Links** (`LinkTokeniser`, `UrlTrimming`, `Html`). `encodeUrlAndMail` keeps the next match of
  each of three patterns and searches anew only where it must; a URL loses unbalanced brackets
  and punctuation at its ends. The patterns are tables that give, for every position, a match or
  none; all that is assumed of them is that matches are not empty, lie inside the text, and that
  the host of a URL begins with no bracket or punctuation.
- **MIME trees** (`Multipart`). Rendering of nested multipart containers, after sections 5.1.3 and
  5.1.4 of RFC 2046 and section 3.2 of RFC 2387.
- **Allocation counting** (`Int32`, `AllocationCounting`, `AllocationPeaks`). Any number of
  threads call the C library and then change shared 32-bit counters, one atomic operation at a
  time; single calls are also modelled as a class.
- **The mail client's queues** (`Transfers`, `ExportQueue`, `FlagRetrieval`, `EmailClient`).
  `EmailClient` is a class whose slots update the same fields as the original. Every slot is
  proved to be a step on values, and the first three modules prove what every run of those steps
  keeps. A service action may report a failure and still count as running, which the
  library allows (src/libraries/qmfclient/qmailserviceaction.cpp:230-234).
- **Removal of an account** (`AccountDeletion`): batch sizes and the timer-driven loop.
- **The signature** under a message being written (`Signature`).
- **Recipients of short messages** (`PhoneNumbers`).

`Text` holds the string operations of the toolkit that are needed.

## What turned out false

- The three parts into which a URL is cut are the URL again exactly if it does not end with a
  bracket too many behind punctuation or behind another bracket too many of a later kind
  (`UrlTrimming.TrimmingKeepsText`, `LosesEnd`); `a.b/c.)` loses its bracket and `a.b/c})` comes
  out with its brackets exchanged (`LosesBracket`, `SwapsBrackets`).
- Quoting a line raises its level by one exactly if it has no marker behind leading spaces
  (`ReplyLevels.QuoteRaisesLevel`); for the same lines the two ways of displaying replies disagree
  (`LevelsAgree`). `>` and `> ` markers become the same line exactly if text follows
  (`SolidAndSpreadMarkersAgree`).
- A paragraph that was wrapped at 78 columns is not joined completely: a break stays exactly where
  the next word would have ended in column 79 (`RowBreaks.BreakAt78`). Wrapped at 79 columns or
  more it is (`ParagraphIsRejoined`).
- With no call in progress the usable bytes are exact exactly if the blocks whose `realloc` failed
  since the last reset add up to a multiple of 2^32 bytes, and the overhead exactly if `realloc`
  freed a block, or failed to allocate one, a multiple of 2^28 times
  (`AllocationCounting.QuietCountersExact`; `AllocationPeaks.ReallocMisleads` does both to one
  block).
- The peaks are maxima in every run without further resets exactly if there are fewer than two
  threads (`AllocationPeaks.PeaksHoldExactly`): with two or more, a peak can end up below the value
  its counter has (`PeakMayFall`); while calls do not overlap it cannot (`PeaksAreMaxima`). Setting
  the counters to zero leaves peaks that were maxima so exactly if they were not negative
  (`AllocationPeaks.TestMalloc.ResetNow`).
- A batch of accounts goes on by itself throughout a run exactly if in it no retrieval fails and
  ends while accounts wait, something is being sent and no timer is posted (`Transfers.AlwaysServed`,
  `ServedUnlessBlamed`, `BlamedRun`, `BlamedIsStuck`). The client goes on
  showing that it sends exactly under the condition in `Transfers.StuckSending`.
- Rendering a message asks a container without parts for its part 0 exactly if some path through
  children that are followed ends at a related container without parts
  (`Multipart.RenderableExactly`).
- Changing the signature keeps the body exactly if the body does not already end with a signature
  that is used (`Signature.BodyIsKept`, `ChangeEatsBody`).

## Model

| member | source | states |
|---|---|---|
| ReplyLevels.ScanLine | examples/qtmail/browserwidget.cpp:1126-1147 | the scan that inserts into the line it is scanning yields the normalised line and the number of its leading markers |
| ReplyLevels.LevelExactly | examples/qtmail/browserwidget.cpp:1126-1147 | the level of a line is the number of markers in its leading run of markers and spaces, if it begins with one, and its body is what follows the run |
| ReplyLevels.NormaliseKeepsLevel | examples/qtmail/browserwidget.cpp:1130-1147 | inserting spaces changes neither a line's level nor the text behind its markers |
| ReplyLevels.NormaliseIdempotent | examples/qtmail/browserwidget.cpp:1130-1147 | a normalised line is left alone |
| ReplyLevels.StripKeepsBody | examples/qtmail/browserwidget.cpp:1158 | for every line the cut at twice the level removes markers and spaces only, and what follows the markers is still at the end |
| ReplyLevels.SolidAndSpreadMarkersAgree | examples/qtmail/browserwidget.cpp:1134-1145 | k markers with and without spaces become the same line, exactly if text follows them |
| ReplyLevels.QuoteRaisesLevel | examples/qtmail/browserwidget.cpp:1130-1158 | a quoted line is one level up with its text unchanged, exactly if it has no marker behind leading spaces |
| ReplyLevels.CountMarkers | examples/qtmail/browserwidget.cpp:1002-1011 | the other display's count of the leading markers |
| ReplyLevels.LevelsAgree | examples/qtmail/browserwidget.cpp:1002-1011 | both displays give a line the same level, exactly if it has no marker behind leading spaces |
| ReplyGroups.GroupLines | examples/qtmail/browserwidget.cpp:1123-1166 | the loop that steps its iterator back ends, with one text and one level for every run of the lines |
| ReplyGroups.GroupReplies | examples/qtmail/browserwidget.cpp:1113-1166 | the same for a whole text, whose empty line behind a final newline is left out |
| ReplyGroups.BodyLinesExactly | examples/qtmail/browserwidget.cpp:1121-1124 | the lines looked at are those that splitting at newlines gives, without the empty one behind a final newline and no other |
| ReplyGroups.SpreadLine | examples/qtmail/browserwidget.cpp:1126-1159 | a line with k markers and a space behind each has level k and the rest as its text |
| ReplyGroups.RunsAreMaximal | examples/qtmail/browserwidget.cpp:1149-1166 | the runs are not empty, adjacent ones differ in level, and together they are all stripped lines, once and in order |
| ReplyGroups.MaximalRunsAreUnique | examples/qtmail/browserwidget.cpp:1149-1166 | no other grouping has these properties |
| ReplyDisplay.HandleReplies | examples/qtmail/browserwidget.cpp:1168-1199 | every group is displayed, in order, and line breaks at the end are taken off |
| ReplyDisplay.DisplayGroup | examples/qtmail/browserwidget.cpp:1173-1187 | a group is coloured and marked with as many markers as its level |
| ReplyDisplay.ChopRemovesBreaks | examples/qtmail/browserwidget.cpp:1194-1196 | line breaks and nothing else are taken off the end, and none is left there |
| ReplyDisplay.NoTextIsLost | examples/qtmail/browserwidget.cpp:1113-1200 | the lines that are displayed and are not empty are those that splitting the text at its newlines gives, in order, with their levels |
| ReplyDisplay.GroupColour | examples/qtmail/browserwidget.cpp:1173-1187 | a group is coloured exactly if its level is above zero, and one that is not is its unwrapped text and a line break |
| ReplyDisplay.LineColour | examples/qtmail/browserwidget.cpp:999-1018 | in the other display a line is coloured exactly if its first character other than a space is a marker |
| ReplyDisplay.NoBreakReplies | examples/qtmail/browserwidget.cpp:991-1025 | the display that keeps line breaks is made of every line, once and in order, coloured if it has markers |
| Unwrapping.Unwrap | examples/qtmail/browserwidget.cpp:1055-1104 | the loop over pairs of lines lays out the pieces that `EmittedShape` describes |
| Unwrapping.EmittedShape | examples/qtmail/browserwidget.cpp:1061-1101 | every line is emitted once and in order, but an empty first and an empty last one; a newline becomes a space exactly where prefix, line and the first word of the next line take more than 78 columns, unless the writer has indented the next line or begun a sentence with it |
| Unwrapping.ProtectSpaces | examples/qtmail/browserwidget.cpp:1040-1045 | every four leading spaces begun become two that do not break |
| Unwrapping.IndentationKept | examples/qtmail/browserwidget.cpp:1029-1053 | a line behind n spaces or tabs keeps two protected spaces for every four spaces begun and for every tab, and the rest as it is |
| RowBreaks.EmittedIsRows | examples/qtmail/browserwidget.cpp:1055-1104 | the pieces emitted are the rows of the text: its lines, with a space for every forced newline and a break for every other one |
| RowBreaks.GapInColumns | examples/qtmail/browserwidget.cpp:1075-1095 | lines that fit into 78 columns with the next word are kept apart; all others are joined that the writer has not begun |
| RowBreaks.ParagraphIsRejoined | examples/qtmail/browserwidget.cpp:1055-1104 | a paragraph in lower case, wrapped at any width from 79 columns on behind any prefix, is one row again |
| RowBreaks.BreakAt78 | examples/qtmail/browserwidget.cpp:1089 | wrapped at 78 columns, a break stays exactly where the next word would have ended in column 79 |
| RowBreaks.ShortLinesStay | examples/qtmail/browserwidget.cpp:1055-1104 | lines that are short enough are all seen as they are |
| VisibleReplies.AppendLineShows | examples/qtmail/browserwidget.cpp:1029-1053 | protecting leading white space changes nothing else that a reader sees |
| VisibleReplies.UnwrappedShows | examples/qtmail/browserwidget.cpp:1055-1104 | a reader of an unwrapped text sees its rows, line breaks included, other white space aside |
| VisibleReplies.ParagraphGroupShows | examples/qtmail/browserwidget.cpp:1173-1187 | so a group of replies that is a wrapped paragraph is seen in one row behind its markers |
| VisibleReplies.RepliesAreVisible | examples/qtmail/browserwidget.cpp:1113-1199 | a reader of the string returned sees, for the lines of the text but an empty last one behind a final newline, every group in order, its markers and then all its rows, if no link in a line hides or adds anything; only line breaks at the end are missing |
| VisibleReplies.PlainTextIsVisible | examples/qtmail/browserwidget.cpp:1113-1199 | of a text without markers the reader sees every character that is no white space, in order |
| VisibleReplies.LinkedRepliesAreVisible | examples/qtmail/browserwidget.cpp:1113-1378 | the same when `encodeUrlAndMail` makes the links and no URL in a line ends with a bracket too many behind punctuation or another one |
| VisibleReplies.ChopSeen | examples/qtmail/browserwidget.cpp:1194-1196 | taking line breaks off the end takes off what a reader sees of them and nothing else, unless an entity is open there |
| VisibleReplies.NoBreakRepliesAreVisible | examples/qtmail/browserwidget.cpp:991-1025 | a reader of the other display sees the text as it is, newlines included, other white space aside; only line breaks at the end are missing |
| VisibleReplies.LinksAreFaithful | examples/qtmail/browserwidget.cpp:1214-1378 | the links in a line hide and add nothing, exactly if no URL that is linked ends with a bracket too many behind punctuation or another one |
| VisibleReplies.LinkedNoBreakRepliesAreVisible | examples/qtmail/browserwidget.cpp:991-1378 | the same when `encodeUrlAndMail` makes the links |
| Quoting.Quote | examples/qtmail/emailcomposer.cpp:1131-1140 | inserting in place is prefixing every line that splitting gives |
| Quoting.LinesOfReply | examples/qtmail/emailcomposer.cpp:1131-1140 | a reply consists of the lines of its introduction and the prefixed lines of the original |
| Quoting.ParseOfReply | examples/qtmail/emailcomposer.cpp:1131-1140 | parsing a reply gives every original line one level up with the same text, exactly for originals in which no line has a marker behind leading spaces |
| Quoting.NestedReplies | examples/qtmail/emailcomposer.cpp:1131-1140 | n nested replies raise a line by exactly n levels and keep its text, exactly if it has no marker behind leading spaces |
| UrlTrimming.Trim | examples/qtmail/browserwidget.cpp:1306-1339 | unbalanced brackets and punctuation come off the ends; the URL keeps its host, so no character of an empty string is read |
| UrlTrimming.BracketsKept | examples/qtmail/browserwidget.cpp:1315-1333 | before punctuation is looked at, the URL is what was cut off in front, the rest, and what was cut off behind in reverse |
| UrlTrimming.TrimmingKeepsText | examples/qtmail/browserwidget.cpp:1306-1341 | what is written out is the matched URL exactly if that does not end with a bracket too many behind punctuation or behind another bracket too many of a later kind, and never longer |
| UrlTrimming.TrimmedExactly | examples/qtmail/browserwidget.cpp:1306-1339 | what comes off in front are the opening brackets of rising kind of which there are too many from there on, and behind the closing ones likewise; a full stop, comma or semicolon then at the end takes the place of what came off behind |
| UrlTrimming.BracketsAtEnd | examples/qtmail/browserwidget.cpp:1315-1333 | whether no, one or more brackets come off the end is decided by the last two characters and the numbers of brackets in the URL |
| UrlTrimming.LosesBracket | examples/qtmail/browserwidget.cpp:1335-1339 | a bracket behind a full stop disappears |
| UrlTrimming.SwapsBrackets | examples/qtmail/browserwidget.cpp:1321-1325 | two brackets at the end change places |
| LinkTokeniser.EncodeUrlAndMail | examples/qtmail/browserwidget.cpp:1260-1378 | the loop with three remembered positions ends, never reaches its assertion, and writes what the simple tokeniser writes |
| LinkTokeniser.FirstIsBest | examples/qtmail/browserwidget.cpp:1269-1288 | the remembered position that is chosen is the leftmost match that can be taken, ties going to URL, address, file; some branch always applies |
| LinkTokeniser.FirstMatch | examples/qtmail/browserwidget.cpp:1269-1288 | which pattern is chosen; the last branch cannot be reached |
| LinkTokeniser.Rejected | examples/qtmail/browserwidget.cpp:1295-1304 | rejecting a URL match leaves every remembered position equal to a fresh search |
| LinkTokeniser.SearchOn | examples/qtmail/browserwidget.cpp:1358-1371 | a pattern is searched for anew exactly if its position was passed |
| LinkTokeniser.Refreshed | examples/qtmail/browserwidget.cpp:1358-1371 | searching anew only there keeps every remembered position equal to a fresh search |
| LinkTokeniser.Replace | examples/qtmail/browserwidget.cpp:1292-1351 | what a match is replaced by |
| LinkTokeniser.SpansAreLeftmost | examples/qtmail/browserwidget.cpp:1265-1373 | the spans taken are the one list of leftmost matches that can be taken, each behind the one before |
| LinkTokeniser.BestExactly | examples/qtmail/browserwidget.cpp:1290-1304 | a position is taken for a URL unless it is only numbers or has credentials, each without a scheme; otherwise for an address, otherwise for a file |
| LinkTokeniser.SpansCover | examples/qtmail/browserwidget.cpp:1265-1373 | wherever something can be made a link, a span that comes first where it begins covers it |
| LinkTokeniser.SpansInOrder | examples/qtmail/browserwidget.cpp:1359-1378 | the spans lie inside the text one behind the other, so that spans and gaps partition it |
| LinkTokeniser.VisibleTextPreserved | examples/qtmail/browserwidget.cpp:1306-1378 | given that addresses print as matched, a reader sees the input, whatever follows it, exactly if no URL that is linked ends with a bracket too many behind punctuation or another one |
| LinkTokeniser.LinksLeadToSpans | examples/qtmail/browserwidget.cpp:1260-1378 | the targets of all links in the html, in order, are those of the spans: the trimmed URL, over HTTP if its match has no scheme, the file, or the mailbox of an address unless it prints as System |
| LinkTokeniser.TargetsOfSpan | examples/qtmail/browserwidget.cpp:1292-1351 | the same for what replaces one span, whatever follows it |
| LinkTokeniser.TargetOfUrl | examples/qtmail/browserwidget.cpp:1456-1463 | a link leads to its URL, over HTTP if there is no scheme |
| LinkTokeniser.VisibleUrl | examples/qtmail/browserwidget.cpp:1456-1463 | a reader sees the three parts of a trimmed URL |
| LinkTokeniser.VisibleAddress | examples/qtmail/browserwidget.cpp:1439-1449 | a reader sees the printed address, linked or not |
| Multipart.Renderer.RenderPart | examples/qtmail/browserwidget.cpp:692-711 | the pieces written, the resources registered and the nodes looked at for a part |
| Multipart.Renderer.RenderSimplePart | examples/qtmail/browserwidget.cpp:643-676 | the same for a part that is shown inline |
| Multipart.Renderer.RenderMultipart | examples/qtmail/browserwidget.cpp:713-783 | the same for a container; rendering ends on every tree |
| Multipart.Renderer.RenderAlternative | examples/qtmail/browserwidget.cpp:717-736 | only the last displayable child is rendered |
| Multipart.Renderer.RenderRelated | examples/qtmail/browserwidget.cpp:737-770 | the start part, then an attachment for every other part that is absent |
| Multipart.Renderer.AddOthers | examples/qtmail/browserwidget.cpp:751-762 | the other parts become resources or are kept for later, in order |
| Multipart.FindStart | examples/qtmail/browserwidget.cpp:738-749 | the search for the start part |
| Multipart.Start | examples/qtmail/browserwidget.cpp:738-749 | the start part is the first one behind part 0 with the wanted content ID, or else part 0 |
| Multipart.Renderer.RenderMixed | examples/qtmail/browserwidget.cpp:771-780 | all children, in order, for mixed and unrecognised kinds |
| Multipart.RenderedExactly | examples/qtmail/browserwidget.cpp:643-783 | a piece is written for a node exactly if the path to it makes it shown, and in that form |
| Multipart.FormsExactly | examples/qtmail/browserwidget.cpp:643-783 | from the fields of the part that a path reaches: inline text with a body that is not empty is written raw if it is HTML and formatted otherwise, an inline image as a picture, alternatives without a text or an image as a notice, and as an attachment what is unavailable, marked as one, text without a body, of another type, or absent beside a start part; nothing else is written |
| Multipart.PieceExactly | examples/qtmail/browserwidget.cpp:643-783 | the same for a path inside any tree |
| Multipart.RenderedInOrder | examples/qtmail/browserwidget.cpp:713-783 | the pieces come in display order: a start part before its siblings, otherwise as in the message |
| Multipart.NoPartTwice | examples/qtmail/browserwidget.cpp:713-783 | no node is written for twice |
| Multipart.VisitsExactly | examples/qtmail/browserwidget.cpp:692-783 | a node is looked at exactly if all containers above it are followed, or it stands beside the start part of one |
| Multipart.NoPartVisitedTwice | examples/qtmail/browserwidget.cpp:692-783 | no node is looked at twice, whether or not anything is written for it |
| Multipart.RenderableExactly | examples/qtmail/browserwidget.cpp:764-765 | a part that does not exist is asked for exactly if some path through children that are followed ends at a related container without parts |
| Multipart.ResourcesExactly | examples/qtmail/browserwidget.cpp:663-762 | the display is given exactly the images shown inline and the present parts beside a start part, each once |
| Multipart.ResourcesFromFields | examples/qtmail/browserwidget.cpp:663-762 | from the fields: the inline images reached and the present parts beside a start part |
| Multipart.BesideStart | examples/qtmail/browserwidget.cpp:751-770 | a part beside a start part becomes a resource or an attachment, never both or neither, and is not descended into |
| Int32.AddDifference | benchmarks/tst_messageserver/testmalloc.cpp:291-294 | adding a difference of sizes to a wrapped counter gives the wrapped true sum |
| Int32.SameCounter | benchmarks/tst_messageserver/testmalloc.cpp:291-294 | two amounts look the same in a counter exactly if they differ by a multiple of its range |
| AllocationCounting.StaysDisciplined | benchmarks/tst_messageserver/testmalloc.cpp:283-317 | sizes looked up before a block is released stay right, and no two threads release the same block |
| AllocationCounting.StaysConserved | benchmarks/tst_messageserver/testmalloc.cpp:257-324 | every step keeps both counters equal to what is allocated, less the baseline, what is pending and what was miscounted, as 32-bit numbers |
| AllocationCounting.AlwaysConserved | benchmarks/tst_messageserver/testmalloc.cpp:257-324 | so does every run, whatever the interleaving |
| AllocationCounting.QuietCountersExact | benchmarks/tst_messageserver/testmalloc.cpp:145-324 | when no call is in progress, and the last reset was a call that nobody interrupted, the usable bytes are what has been allocated since, exactly if the blocks whose `realloc` failed since then add up to a multiple of 2^32 bytes, and the overhead, exactly if `realloc` freed a block or failed to allocate one a multiple of 2^28 times |
| AllocationCounting.UsableSinceReset | benchmarks/tst_messageserver/testmalloc.cpp:152-324 | whatever other threads do at the same time, since the last step that set the usable bytes to zero they follow what is allocated and no longer pending, exactly under that condition |
| AllocationCounting.OverheadSinceReset | benchmarks/tst_messageserver/testmalloc.cpp:152-324 | the same for the overhead, which is set to zero in a step of its own |
| AllocationCounting.UsableFollows | benchmarks/tst_messageserver/testmalloc.cpp:257-324 | between any two times without a reset in between the usable bytes change like what is allocated and no longer pending, exactly under that condition |
| AllocationCounting.OverheadFollows | benchmarks/tst_messageserver/testmalloc.cpp:257-324 | the same for the overhead |
| AllocationCounting.ZeroesOne | benchmarks/tst_messageserver/testmalloc.cpp:155-156 | each of the two steps of a reset sets its counter to zero and changes nothing else, in any state |
| AllocationCounting.RunMisses | benchmarks/tst_messageserver/testmalloc.cpp:283-298 | by how much a run has miscounted, from the calls of `realloc` in it |
| AllocationCounting.NothingMiscounted | benchmarks/tst_messageserver/testmalloc.cpp:283-298 | nothing is miscounted in runs in which `realloc` neither fails nor frees |
| AllocationCounting.ReallocMiscounts | benchmarks/tst_messageserver/testmalloc.cpp:283-298 | by how much such a call miscounts |
| AllocationCounting.AlwaysSeen | benchmarks/tst_messageserver/testmalloc.cpp:234-242 | in every run a peak is a value the counter has had, or the sum of two values the counters have had |
| AllocationCounting.PeaksWereHad | benchmarks/tst_messageserver/testmalloc.cpp:234-242 | the same in terms of the states of the run so far |
| AllocationPeaks.TestMalloc.Malloc | benchmarks/tst_messageserver/testmalloc.cpp:257-268 | the counters after a call, the peaks being the maxima since they were reset |
| AllocationPeaks.TestMalloc.Realloc | benchmarks/tst_messageserver/testmalloc.cpp:283-298 | the same; overhead is added exactly if nothing had been allocated |
| AllocationPeaks.TestMalloc.Free | benchmarks/tst_messageserver/testmalloc.cpp:313-324 | the same; nothing is counted for no block |
| AllocationPeaks.TestMalloc.UpdatePeak | benchmarks/tst_messageserver/testmalloc.cpp:234-242 | each peak becomes the greater of itself and its counter |
| AllocationPeaks.RaisedIsMaximum | benchmarks/tst_messageserver/testmalloc.cpp:234-242 | that keeps peaks maxima of all values since the reset |
| AllocationPeaks.TestMalloc.ResetPeak | benchmarks/tst_messageserver/testmalloc.cpp:145-150 | the peaks are maxima of the present values alone |
| AllocationPeaks.TestMalloc.ResetNow | benchmarks/tst_messageserver/testmalloc.cpp:152-157 | the counters are zero; peaks that were maxima stay so exactly if they were not negative |
| AllocationPeaks.StartMeasuring | benchmarks/tst_messageserver/benchmarkcontext.cpp:82-83 | resetting both makes everything zero and the peaks maxima, whatever they were |
| AllocationPeaks.AloneCounts | benchmarks/tst_messageserver/testmalloc.cpp:257-268 | the steps of a thread that is not interrupted amount to one call of the class |
| AllocationPeaks.AllocAlone | benchmarks/tst_messageserver/testmalloc.cpp:257-268 | a whole call that is not interrupted leaves the block allocated and counted |
| AllocationPeaks.FreeAlone | benchmarks/tst_messageserver/testmalloc.cpp:313-324 | it leaves the block gone, and its bytes and overhead taken off |
| AllocationPeaks.ReallocAlone | benchmarks/tst_messageserver/testmalloc.cpp:283-298 | it leaves the heap as the C library does, and the difference of the sizes counted |
| AllocationPeaks.ReallocMisleads | benchmarks/tst_messageserver/testmalloc.cpp:283-298 | a block of 100 bytes whose `realloc` fails is allocated and no longer counted; when `realloc` frees it, 16 bytes of overhead stay counted |
| AllocationPeaks.NowResetAlone | benchmarks/tst_messageserver/testmalloc.cpp:152-157 | setting the counters to zero when no call is in progress leaves heap and peaks alone |
| AllocationPeaks.PeakResetAlone | benchmarks/tst_messageserver/testmalloc.cpp:145-150 | resetting the peaks makes them what the counters are |
| AllocationPeaks.BothReset | benchmarks/tst_messageserver/benchmarkcontext.cpp:82-83 | both, one after the other, leave all four counters at zero and the heap as it was, whatever has happened before |
| AllocationPeaks.PeaksAreMaxima | benchmarks/tst_messageserver/testmalloc.cpp:234-324 | in every run without further resets in which calls do not overlap, each peak is the maximum of the values at the times when no call was in progress, from any such time on at which the peaks were what the counters were |
| AllocationPeaks.PeaksSinceReset | benchmarks/tst_messageserver/testmalloc.cpp:145-150 | the same from the last reset of the peaks in a run, five steps after the call began |
| AllocationPeaks.FollowsOn | benchmarks/tst_messageserver/testmalloc.cpp:234-242 | every atomic step of such a call brings the peaks nearer to that |
| AllocationPeaks.PeakMayFall | benchmarks/tst_messageserver/testmalloc.cpp:234-239 | with two threads or more, when all calls have ended a peak can be below the value its counter has |
| AllocationPeaks.PeaksHoldExactly | benchmarks/tst_messageserver/testmalloc.cpp:234-324 | the peaks are maxima in every run without further resets, exactly if there are fewer than two threads |
| ExportQueue.AlwaysSound | examples/qtmail/emailclient.cpp:2625-2668 | in every run the accounts accepted are those exported followed by those that wait; none waits twice; the one being exported is the head; there is an action exactly while some wait |
| ExportQueue.RequestedKeeps | examples/qtmail/emailclient.cpp:2625-2640 | after a request every account asked for waits and an export is running |
| ExportQueue.SucceededKeeps | examples/qtmail/emailclient.cpp:1972-1975 | a success removes the account that was exported from the queue and starts the next export |
| ExportQueue.LeavesBySuccess | examples/qtmail/emailclient.cpp:1972-1983 | an account leaves the queue exactly by its own success |
| ExportQueue.FailedIsRetried | examples/qtmail/emailclient.cpp:1976-1983 | a failure that has ended leaves the queue as it is and the action idle; the next request, whatever it asks for, runs the same account first and puts only what it asks for behind the queue |
| ExportQueue.NewAccountsInOrder | examples/qtmail/emailclient.cpp:2625-2650 | accounts that do not wait yet are put behind the queue in their order |
| ExportQueue.SuccessesEmptyTheQueue | examples/qtmail/emailclient.cpp:2652-2668 | as many successes as accounts wait empty the queue in its order, and the action is gone |
| FlagRetrieval.AlwaysSound | examples/qtmail/emailclient.cpp:2019-2037 | in every run messages wait only while a request is running, and what was asked for was sent, waits, or was dropped by a failure |
| FlagRetrieval.WaitingIsSentNext | examples/qtmail/emailclient.cpp:2307-2333 | what is asked for while a request runs is in the next one if the running one succeeds |
| FlagRetrieval.RequestExactly | examples/qtmail/emailclient.cpp:2019-2037 | the next request is for exactly what was shown while the last one was running, and for what waited; if that one failed, all this is given up, and what is shown next is asked for alone |
| Transfers.AlwaysSound | examples/qtmail/emailclient.cpp:2509-2560 | in every run the status is a set of the two bits, the primary activity is inactive or one of them, and the accounts done followed by those that wait are the batch, for retrieving and for sending |
| Transfers.StaysSound | examples/qtmail/emailclient.cpp:1341-1523 | the same for every single step |
| Transfers.BitsKept | examples/qtmail/emailclient.cpp:2509-2543 | switching one activity leaves the other and the primary activity consistent |
| Transfers.PrimaryCameFirst | examples/qtmail/emailclient.cpp:2509-2543 | after any switches, an activity is the primary one exactly if it was switched on while the other was off and has not been switched off since |
| Transfers.SynchronisesInOrder | examples/qtmail/emailclient.cpp:1487-1503 | all steps but a new batch and a cancellation synchronise the next account of the batch or none |
| Transfers.BatchBegins | examples/qtmail/emailclient.cpp:1363-1407 | a batch begins with its first account, and without one nothing is retrieved |
| Transfers.BatchGoesOn | examples/qtmail/emailclient.cpp:1341-1355 | a success goes on with the next account of the batch, or ends retrieving |
| Transfers.SuccessesFinishTheBatch | examples/qtmail/emailclient.cpp:1341-1503 | when nothing fails, every account of a batch is synchronised, in order, and then retrieving has ended |
| Transfers.FailureEnds | examples/qtmail/emailclient.cpp:1512-1565 | a failure ends sending, or else retrieving, and then posts a timer exactly if accounts wait |
| Transfers.FailureGoesOn | examples/qtmail/emailclient.cpp:1512-1523 | after a failed account that timer goes on with the next one |
| Transfers.OtherRetrievals | examples/qtmail/emailclient.cpp:1409-1421 | single messages and more of a folder are retrieved without an account and leave a batch alone; while something is shown to be retrieved, all requests to retrieve do nothing |
| Transfers.CancelDropsTheRest | examples/qtmail/emailclient.cpp:1074-1095 | cancelling leaves of a batch exactly what has been synchronised |
| Transfers.ServedUnlessBlamed | examples/qtmail/emailclient.cpp:1505-1565 | a batch will be gone on with after every step, unless a retrieval fails and ends while something is being sent and no timer is waiting |
| Transfers.AlwaysServed | examples/qtmail/emailclient.cpp:1505-1565 | a batch is gone on with throughout a run, exactly if there is no such failure in it |
| Transfers.BlamedRun | examples/qtmail/emailclient.cpp:1559-1563 | three steps that leave a batch behind |
| Transfers.BlamedIsStuck | examples/qtmail/emailclient.cpp:1559-1563 | after any failure of a retrieval while something is being sent the client refuses every retrieval, even if none is running |
| Transfers.TransmittingKeeps | examples/qtmail/emailclient.cpp:1269-1278 | transmission goes on exactly if one of the accounts left can transmit, and leaves retrieval alone |
| Transfers.FirstAbleTransmits | examples/qtmail/emailclient.cpp:1238-1279 | the first account that can transmit does, those in front of it are passed over and those behind it are left; without one, nothing begins |
| Transfers.SuccessesEmptyTheOutbox | examples/qtmail/emailclient.cpp:1238-1339 | when all accounts can transmit and nothing fails, all of them do, in order, and then sending has ended |
| Transfers.FailedMessagesReported | examples/qtmail/emailclient.cpp:1316-1339 | when messages of the last transmission failed, sending has ended and the flag is cleared; retrieving is ended only if nothing was being sent |
| Transfers.StuckSending | examples/qtmail/emailclient.cpp:1316-1339 | when the client still shows that it is sending although nothing is being transmitted |
| EmailClient.EmailClient.SetSendingInProgress | examples/qtmail/emailclient.cpp:2509-2525 | the status after switching sending on or off |
| EmailClient.EmailClient.SetRetrievalInProgress | examples/qtmail/emailclient.cpp:2527-2543 | the status after switching retrieving on or off |
| EmailClient.EmailClient.TransferStatusUpdate | examples/qtmail/emailclient.cpp:2545-2560 | the status is the one given |
| EmailClient.EmailClient.RetrieveVisibleMessagesFlags | examples/qtmail/emailclient.cpp:2307-2333 | the messages are asked for at once or wait; nothing happens offline |
| EmailClient.EmailClient.FlagRetrievalActivityChanged | examples/qtmail/emailclient.cpp:2019-2037 | what waits is sent after a success and dropped after a failure |
| EmailClient.EmailClient.ExportPendingChanges | examples/qtmail/emailclient.cpp:2625-2640 | all accounts are put into the queue and an export is started; nothing happens offline |
| EmailClient.EmailClient.EnqueueExport | examples/qtmail/emailclient.cpp:2642-2650 | an account is put into the queue unless it waits already |
| EmailClient.EmailClient.RunNextPendingExport | examples/qtmail/emailclient.cpp:2652-2668 | the head of the queue is exported, or the action goes with the last account |
| EmailClient.EmailClient.ExportSucceeded | examples/qtmail/emailclient.cpp:1972-1975 | the head is taken off a queue that is never empty then |
| EmailClient.EmailClient.GetNewMail | examples/qtmail/emailclient.cpp:1363-1372 | the account is synchronised |
| EmailClient.EmailClient.GetNextNewMail | examples/qtmail/emailclient.cpp:1487-1503 | the next account is synchronised, or the batch ends and flags are asked for |
| EmailClient.EmailClient.TimerFires | examples/qtmail/emailclient.cpp:1518-1520 | a timer that was posted goes on with the batch |
| EmailClient.EmailClient.GetAllNewMail | examples/qtmail/emailclient.cpp:1374-1390 | a new batch is started unless something is being retrieved |
| EmailClient.EmailClient.GetAccountMail | examples/qtmail/emailclient.cpp:1392-1407 | the same for one account |
| EmailClient.EmailClient.GetSingleMail | examples/qtmail/emailclient.cpp:1409-1421 | single messages are retrieved unless something is being retrieved |
| EmailClient.EmailClient.RetrieveMoreMessages | examples/qtmail/emailclient.cpp:2282-2305 | more of a folder is retrieved unless something is being retrieved; without a folder the account is forgotten all the same |
| EmailClient.EmailClient.CreateStandardFolders | examples/qtmail/emailclient.cpp:2580-2590 | the retrieval action is started without a sign of it in the status |
| EmailClient.EmailClient.RetrievalCompleted | examples/qtmail/emailclient.cpp:1341-1355 | a batch goes on, other retrieval ends |
| EmailClient.EmailClient.SendAllQueuedMail | examples/qtmail/emailclient.cpp:1238-1279 | the first account that can transmit does; the outbox is looked at only if no account is left |
| EmailClient.EmailClient.CollectAccounts | examples/qtmail/emailclient.cpp:1240-1249 | the outbox is looked at only if no account is left from the last time |
| EmailClient.EmailClient.TransmitNextAccount | examples/qtmail/emailclient.cpp:1269-1278 | accounts that cannot transmit are passed over |
| EmailClient.EmailClient.TransmitCompleted | examples/qtmail/emailclient.cpp:1316-1339 | messages that failed are reported, then the next account transmits or sending ends |
| EmailClient.EmailClient.MessagesFailedTransmission | examples/qtmail/emailclient.cpp:2013-2016 | that messages could not be sent is remembered |
| EmailClient.EmailClient.ReceiveFailure | examples/qtmail/emailclient.cpp:1512-1523 | retrieving ends and a timer is posted if accounts are left |
| EmailClient.EmailClient.TransferFailure | examples/qtmail/emailclient.cpp:1525-1565 | sending is blamed before retrieving |
| EmailClient.EmailClient.CancelOperation | examples/qtmail/emailclient.cpp:1074-1108 | both activities end and the rest of the batch is dropped, if the button is enabled |
| EmailClient.EmailClient.ActivityChanged | examples/qtmail/emailclient.cpp:1961-1988 | which report leads to which step |
| AccountDeletion.BatchesAreFew | examples/qtmail/accountsettings.cpp:155-174 | for more than 100 messages the batch size is at most 50 and there are as few batches as if it were 50 |
| AccountDeletion.PiecesAreLeast | examples/qtmail/accountsettings.cpp:172-173 | the division rounds up: the number of pieces is the least that is enough |
| AccountDeletion.AccountSettings.RemoveAccount | examples/qtmail/accountsettings.cpp:163-184 | the list, the batch size and the timer a removal begins with |
| AccountDeletion.AccountSettings.DeleteMessages | examples/qtmail/accountsettings.cpp:212-234 | one timer step: a batch is removed, or the account |
| AccountDeletion.MessagesFirst | examples/qtmail/accountsettings.cpp:163-234 | after any number of steps the messages removed followed by those that wait are the list, progress and the rest add up to its length, and the account is removed once, after all messages |
| AccountDeletion.StepsToTheEnd | examples/qtmail/accountsettings.cpp:163-234 | exactly how many batches and steps a removal takes |
| AccountDeletion.StepsExactly | examples/qtmail/accountsettings.cpp:155-234 | with fewer than 20 messages the account goes in the first step, with up to 100 one step behind as many messages, and with more, behind as many batches as batches of 50 would be |
| AccountDeletion.BatchSizes | examples/qtmail/accountsettings.cpp:169-174 | up to 100 messages go one by one; more go in the smallest batches that are no more than batches of 50 would be |
| Signature.Composer.SetPlainText | examples/qtmail/emailcomposer.cpp:701-721 | the signature is put behind the text unless the text ends with it; where the cursor shall go |
| Signature.Composer.SetSignature | examples/qtmail/emailcomposer.cpp:863-875 | the old signature is taken off and the new one put on |
| Signature.Composer.SetCursorPosition | examples/qtmail/emailcomposer.cpp:585-594 | the cursor moves once |
| Signature.ChangeKeepsBody | examples/qtmail/emailcomposer.cpp:863-875 | one change keeps the body exactly if it does not end with the new signature, and the cursor goes to its end |
| Signature.CursorAboveSignature | examples/qtmail/emailcomposer.cpp:701-721 | a text that is signed already is left alone, with the cursor at the end of what stands above its signature |
| Signature.ChangeEatsBody | examples/qtmail/emailcomposer.cpp:863-875 | otherwise the change after it removes the end of the body and one character more |
| Signature.BodyIsKept | examples/qtmail/emailcomposer.cpp:863-875 | any sequence of signatures keeps the body throughout, whether or not the cursor moves in between, exactly if the body ends with none of them that is not empty; cursor targets are then its end |
| PhoneNumbers.GetNumbers | examples/qtmail/detailspage.cpp:396-431 | the loop yields the numbers that are found |
| PhoneNumbers.NumbersAreExact | examples/qtmail/detailspage.cpp:402-431 | these are all unbroken runs of number characters that begin where a number may and end at a comma, an angle bracket or the end, in order and apart |
| PhoneNumbers.MightExactly | examples/qtmail/detailspage.cpp:402-431 | a number may go on or begin exactly where a space or a comma has followed every character that no number and no list of numbers contains |
| PhoneNumbers.CharactersExactly | examples/qtmail/detailspage.cpp:405-424 | which characters a number consists of, which end one, and which end a token |
| PhoneNumbers.JoinedNumbersAreFound | examples/qtmail/detailspage.cpp:402-431 | any list of numbers that are not empty, joined by commas, is found again |

## Left out

- Widgets, menus, dialogs, painting and translations: user interface.
- The regular expressions: what they match is a table given with the text; their longest-match rules are not modelled.
- `QMailStore`, `QMailMessage`, `QMailAddress`, the service actions and the editor's round trip: what they answer are parameters.
- White space and upper case: predicates on characters, as the toolkit's tables are not part of this model.
- Nested event loops of message boxes, and slots that run inside them.
- `calloc` and `memalign`: their bodies count as `malloc` does.
- Order of evaluation inside one comparison of counters: the left operand is loaded first, which C++ leaves open.
- The time before counting is set up, `selftest`, and the `TEST_TESTMALLOC` build; blocks have a usable size above zero.
- Transmission requested while another is running, and two removals of accounts at a time.
- `mailResponded`, which asks for an export when a response has been sent: it adds a request and nothing else.
- smsBreakReplies, buildParagraph and the HTML header of a message: simpler texts built from the same pieces.
- The content of rendered parts: a piece names the part and the form it is shown in.
