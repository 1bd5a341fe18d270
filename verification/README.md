# Verified models of the CTF application's cores

This project models nine components of the repository in Dafny and proves what each of them is
for. `dafny verify dfyconfig.toml` checks all of it.

- **Chart reader** (`ChartText`, `ChartParse`, `ChartRoundTrip`, `ChartReadBack`, `ChartDocuments`,
  `ChartRules`, `ChartNesting`, `ChartFold`, `ChartFlow`, `ChartFlowRules`): the YAML-subset reader. The loops are
  methods proved against recursive functions; reading undoes printing, whatever the quotes, comments and
  separators, block scalars come back verbatim, acceptance is well-nestedness.
- **Hidden-character scanners** (`Utf8`, `Utf8Encoding`, `Hygiene`, `Cleanness`, `Capacity`): the Go scanner streams bytes, the Python
  one decodes first; both equal one rule about a position and its neighbours, and what a clean text can
  carry is counted exactly.
- **HTML sanitizer** (`Html`, `Sanitize`, `SanitizePolicy`): the linked tree rewritten in place. A ghost map of
  children ties the pointers together; the walk makes exactly the tree of a pure function, and that
  tree is the original filtered, survivors under their surviving ancestors.
- **Scoring store** (`StoreState`, `StoreReads`, `StoreRuns`, `StoreStale`, `StoreFires`, `Store`): tables and in-memory
  mirrors as a step machine in which any SQL statement may fail, with restarts.
- **QA board** (`BoardState`, `BoardReads`, `BoardRuns`, `Board`): audience, ownership, moderation, and
  non-interference between participants.
- **Declaration checker** (`Documents`, `TextOriginWalk`, `TextOriginRoles`, `TextOrigin`, `TextOriginRules`,
  `TextOriginReport`): a structured walk, exact for a grammar of places, checked against a blind scan by JSON
  pointer.
- **Ingress coverage** (`Ingress`, `IngressReport`, `IngressReach`, `IngressServe`): a prefix test that stands for a
  statement about all paths, exactly when it tells whether some path of a route gets through, and which
  routes of a whole table the mux really serves through an entry.
- **Identity** (`Identity`, `Roster`, `AddressRules`, `AuthPolicy`): addresses, the seat table, the three doors.
- **Hint leaks** (`HintLeak`, `HintLeakReport`): the n-gram rule. `Strings` holds the orders, sorts and splits, `Wrappers` the
  option and result types.

Objects with updated fields are classes whose methods are tied to a function of the old state; the
lemmas are about those functions. Beside each such function stand lemmas that say what it computes without
naming it, in literal names, numbers and positions: the modules that end in `Rules`, `Reads`, `Report`,
`Roles` and `Policy`, `Cleanness` and `Utf8Encoding`.

## Assumptions

- A SQL statement or commit takes effect fully or not at all. Calls are atomic: the mutex.
- Generated ids are parameters, fresh where a lemma says so.
- Unicode `So` and `IsSpace` are parameters; of `IsSpace` only this is used, that no printable
  ASCII character is a space. Of `ToLower` only what can become an ASCII letter is modelled, which
  is all that a lookup among ASCII names can see.
- UTF-8 decoding follows section 4 of RFC 3629; each invalid byte is one unit in both languages.
- Times are reals in the store's rule fires and texts elsewhere, as the code keeps them.
- Go compares strings by bytes; on UTF-8 that is the order of the code points.
- `golang.org/x/net/html` is not part of the repository: its `RemoveChild` and `InsertBefore` are
  modelled as the doubly linked list they document, and a text node has no children.
- Kubernetes matches a `Prefix` path element by element and ignores its trailing slash; the mux
  serves a wildcard segment with any non-empty text without a slash.
- The mux gives a request to the most specific of the routes that ask for it, redirects a path that is
  not in its cleaned form, and redirects a path that only a subtree above it would take to the same path
  with a slash where a route serves that exactly. Paths carry no percent escapes.

## Where the code and its documentation differ

The models follow the code.

- Board: the package comment says a moderated thread is indistinguishable from an unknown one. The
  author's own append to it stores the message and returns the thread
  (`BoardRuns.HiddenThreadIsShownToItsAuthor`); the exact rule is `BoardRuns.UnreadableIsUnknown`.
- Board: for an empty viewer the listing compares likes with the empty user and reading answers
  false (`BoardRuns.ListedIffRead`); `BoardRuns.NobodysLike` is a run after which the two differ.
- Scanner: one visible symbol per invisible rune is not a bound on the total, not even of selectors and
  joiners (`Hygiene.InvisibleRunesCanOutnumberSymbols`), and a byte order mark and CRs need no symbol at
  all (`Capacity.LoneMark`, `Capacity.NoBoundInSymbols`). Each kind has its own bound
  (`Hygiene.CapacityBound`), and `Capacity.OnePerSymbolIff` says exactly when the total holds.
- Ingress: the comment speaks of every reachable route. Taken by itself, a foreign route is reachable and
  not reported exactly where an entry matches it deeper than its fixed part
  (`IngressReach.CoversTellsReachabilityIff`): one value of a parameter, or a path below a subtree such as
  the operator route `GET /` (`internal/scoreboard/view/view.go:229`). The mux gives a path to its most
  specific route, so not each such match lets a request through: for the entry `/portal`, `GET /portal`
  shields `GET /` (`IngressServe.PortalShieldsTheRoot`), and for `/static/` nothing does
  (`IngressServe.RootIsServedBesideAssets`; view.go:308-318 guards against it). Exactly which routes are
  served unreported: `IngressServe.CoversTellsServedIff`, `IngressServe.EmptyReportIsServedIff`.
- Store: a MarkDirty whose insert fails is forgotten by a restart
  (`StoreRuns.FailureAndRestartForgetTaint`). A restart keeps the rule against stale receipts exactly
  when a dirty pair has a taint row or no receipt row (`StoreStale.RestartKeepsTheRuleIff`), and a run
  exactly when all its restarts do (`StoreStale.SafeThroughoutIff`).
- Sanitizer: a kept name is allowlisted after lower-casing, not as written
  (`Sanitize.KelvinSignIsAllowed`).
- Sanitizer: the comment has a node of unknown type replaced by its children; a document, error or raw
  node is kept (`Sanitize.UnknownNodeIsKept`), and exactly these are (`Sanitize.OnlyAllowedAndTextIff`).
- Chart reader: an absent root prints to a text with no document
  (`ChartReadBack.OneDocumentIffNotAbsent`), and a block scalar has no place at the root.
- Rule fires: the cache is right for fires in any time order, if no question comes before a fire
  (`StoreFires.KeptAnswersAsHistory`).

## Model

| member | source | states |
|---|---|---|
| ChartReadBack.LoadUndoesRender | scripts/lib/chartparse.py:364-380 | loading the rendering of any tree of non-empty mappings and sequences, absent values, literal block scalars, and keys and scalars that are double-quoted, single-quoted or plain, with or without a trailing comment on each line, returns exactly that one document |
| ChartReadBack.OneDocumentIffNotAbsent | scripts/lib/chartparse.py:364-380 | the rendering, comments and all, is read back as the one tree iff the root is not absent; an absent root renders to no document |
| ChartReadBack.KeptLiteralIsVerbatim | scripts/lib/chartparse.py:182-204 | a literal scalar with keep chomping is its cut lines, each with its line break, whatever they hold |
| ChartReadBack.LiteralChunk | scripts/lib/chartparse.py:207-252 | a literal header with a digit and `+`, at any column, takes exactly the indented lines of its text and gives the text back character for character |
| ChartReadBack.KeyAndValueAreRead | scripts/lib/chartparse.py:255-278 | one line `key: value`, each side quoted or plain, is the mapping of exactly that key to exactly that text |
| ChartDocuments.LoadUndoesStream | scripts/lib/chartparse.py:364-380 | any number of printed documents between `---` lines load as their values in order, an absent root giving none |
| ChartReadBack.RootBlockIsRefused | scripts/lib/chartparse.py:364-380 | loading a text whose first line is a literal header raises, whatever follows: a block scalar has no place at the root |
| ChartRoundTrip.DistinctKeysKeepEveryEntry | scripts/lib/chartparse.py:339-361 | with distinct keys a mapping holds exactly the printed entries, each with its own value |
| ChartNesting.AcceptedIffWellNested | scripts/lib/chartparse.py:287-380 | a preprocessed document is accepted iff a one-pass automaton over a stack of open levels accepts it: each line opens a deeper level where its predecessor allows one or stands at a level still open and of its kind; no misindented line is absorbed and no well-nested one refused |
| ChartParse.ParseBlock | scripts/lib/chartparse.py:287-306 | recursion on the weight of the lines left; what is left is a proper suffix of the list, so the parser always advances |
| ChartParse.ParseSequence | scripts/lib/chartparse.py:309-336 | the rest is a suffix, and a first item is always consumed, though the item is re-parsed from a rewritten list |
| ChartParse.ItemLines | scripts/lib/chartparse.py:309-336 | the rewritten list an item is parsed from is no longer than the list and weighs at least two less |
| ChartParse.ParseMapping | scripts/lib/chartparse.py:339-361 | the rest is a suffix, and a first entry is always consumed |
| ChartParse.ReadBlock | scripts/lib/chartparse.py:287-306 | the index-based method advances exactly as the recursion on suffixes |
| ChartParse.ReadSequence | scripts/lib/chartparse.py:309-336 | the loop over items, with the index it returns, computes the recursion on suffixes |
| ChartParse.CollectItem | scripts/lib/chartparse.py:309-336 | the loop collects the dash's rest and every deeper entry, and stops at the first that is not deeper |
| ChartParse.ReadMapping | scripts/lib/chartparse.py:339-361 | the loop over keys and the dict it fills compute the recursion, a repeated key keeping its last value |
| ChartParse.LoadAllDocuments | scripts/lib/chartparse.py:364-380 | the documents of a text, in order, blank ones skipped, the first error refusing the whole |
| ChartText.StripComment | scripts/lib/chartparse.py:88-99 | a `#` outside quotes at the start or after white space ends the line |
| ChartText.FindKeyColon | scripts/lib/chartparse.py:262-278 | the first colon outside quotes that a space or the end follows |
| ChartText.FindBlockHeader | scripts/lib/chartparse.py:119-152 | the header behind any run of dashes and a key, with the column of its node; a malformed or rootless header raises |
| ChartText.Fold | scripts/lib/chartparse.py:155-179 | the loop that joins folded lines, keeps breaks around more-indented ones and counts the trailing blanks |
| ChartFold.FoldKeepsTheInk | scripts/lib/chartparse.py:155-179 | folding loses, adds and moves no character but blanks and breaks |
| ChartFold.FoldJoinsLines | scripts/lib/chartparse.py:155-179 | adjacent lines that do not start with white space become one, with single spaces |
| ChartFold.FoldUndoesSpread | scripts/lib/chartparse.py:155-179 | a text written with a blank line at each of its breaks is folded back to itself |
| ChartText.BlockScalarText | scripts/lib/chartparse.py:182-204 | the text of a scalar under its style and chomping |
| ChartText.CollectBody | scripts/lib/chartparse.py:207-252 | the body lines a header takes: every blank or deeper line, raising on one left of the body's own indentation |
| ChartText.Preprocess | scripts/lib/chartparse.py:207-252 | the loop over raw lines yields the line and body entries chunk by chunk, raising on tabs before a comment |
| ChartRules.SpacesAre | scripts/lib/chartparse.py:88-99 | which code points are white space and which of them break lines, as numbers |
| ChartRules.LineThenBreak | scripts/lib/chartparse.py:207-252 | a text splits at its first break; `LineThenCrLf` and `LastLineIs` say the same of CR LF and of the end |
| ChartRules.StripIs | scripts/lib/chartparse.py:255-259 | stripping leaves exactly what stands between the white space at both ends |
| ChartRules.ScalarIs | scripts/lib/chartparse.py:255-259 | a text in a matching pair of quotes is what is inside them, any other is itself, stripped |
| ChartRules.KeyColonIff | scripts/lib/chartparse.py:262-278 | position i is the key's colon iff it is a colon outside quotes before a space or the end, and no earlier one is |
| ChartRules.CommentIs | scripts/lib/chartparse.py:88-99 | a line is cut at the first `#` outside quotes that starts it or follows white space, and is whole where there is none |
| ChartRules.ReadIsWritten | scripts/lib/chartparse.py:119-152 | every accepted header is one of the spellings: a style, a digit and a chomping mark in either order |
| ChartRules.WrittenIsRead | scripts/lib/chartparse.py:119-152 | each spelling is read as its style, indentation and chomping |
| ChartRules.KeyHeaderIsRead | scripts/lib/chartparse.py:119-152 | behind a quoted or plain key the header is found, at the key's column |
| ChartRules.ChompIs | scripts/lib/chartparse.py:182-204 | stripping, clipping and keeping differ exactly in the breaks after the last line with content: none, one, all |
| ChartRules.FoldOneMore | scripts/lib/chartparse.py:155-179 | what one more line adds to a folded text: a space, or a break for each blank line and beside a more-indented one |
| ChartRules.BodyIs | scripts/lib/chartparse.py:225-251 | a body is every blank or deeper line up to the first that is neither, each from the body's column on, nothing where it is shorter: the column is the digit's, that of the first line with content, or one behind the parent's; a line with content left of it refuses the text |
| ChartRules.TabIff | scripts/lib/chartparse.py:216-218 | a line is refused iff a tab stands in front of any hash |
| ChartRules.AnyBodyIsRead | scripts/lib/chartparse.py:207-252 | behind a header, any indented lines are taken and the rest is read on |
| ChartFlow.SplitLosesNothing | scripts/lib/chartparse.py:503-522 | the elements of a split flow sequence, joined by commas, are the text |
| ChartFlow.SplitFlowItems | scripts/lib/chartparse.py:503-522 | the loop splits at commas outside quotes and raises on an unterminated quote |
| ChartFlow.ReadFlowList | scripts/lib/chartparse.py:525-563 | the frame, the one allowed trailing comma, the empty and malformed elements, and the elements in order |
| ChartFlow.FlowListIsReadBack | scripts/lib/chartparse.py:525-563 | every list of texts without a double quote or a backslash, printed quoted, is read back, commas and brackets included |
| ChartFlowRules.SplitIff | scripts/lib/chartparse.py:503-522 | elements are the result of splitting iff none has an open quote or a comma outside quotes and they join back to the text |
| ChartFlowRules.FlowListIff | scripts/lib/chartparse.py:525-563 | a list is read iff it is bracketed and its parts, but for one empty last part, are each an acceptable element; exactly these are its value |
| Utf8.PythonDecodesTheSameRunes | scripts/sourcehygiene-scan.py:349-355 | decoding with surrogate escapes, a whole error range at a time, gives the runes of byte-by-byte decoding, no genuine character mistaken for an escaped byte |
| Utf8.DecodeRuneIsFirstRune | internal/sourcehygiene/invisible.go:144-203 | one streaming decode is the first rune of the text; width tells an invalid byte from a genuine U+FFFD |
| Utf8Encoding.WellFormedIff | internal/sourcehygiene/invisible.go:144-203 | a byte string starts with a decodable sequence iff it starts with the encoding of some scalar value, marker and payload bits written out |
| Utf8Encoding.DecodingUndoesEncoding | internal/sourcehygiene/invisible.go:144-203 | decoding the encoding of any scalar values returns them; a byte that starts none is one invalid unit (`OneByteAtATime`) |
| Utf8Encoding.ErrorRangeIsMaximal | scripts/sourcehygiene-scan.py:349-355 | an error range is the longest piece that starts some encoding, at least one byte |
| Hygiene.GoLookup | internal/sourcehygiene/invisible.go:102-108 | the binary search over the table equals the linear search of its rows |
| Hygiene.PyLookup | scripts/sourcehygiene-scan.py:153-157 | the bisection over the lower ends equals the linear search of the rows |
| Hygiene.GoTableIsUsable | internal/sourcehygiene/invisible.go:57-99 | the shipped table is ascending and disjoint and holds the context rows |
| Hygiene.TablesHoldTheSameRows | internal/sourcehygiene/testdata/hidden-ranges.tsv:1-52 | the tsv holds exactly the rows of the Go table and one bidi row per control of chars.go |
| Hygiene.GoScan | internal/sourcehygiene/invisible.go:144-203 | the streaming scan returns the findings of the per-position rule on the decoded runes: line, column, code point and reason, in order |
| Hygiene.GoJudge | internal/sourcehygiene/invisible.go:144-203 | the verdict kept from the previous rune, the flag and the bytes ahead equals the rule that looks at a position and its neighbours |
| Hygiene.HiddenScan | internal/sourcehygiene/invisible.go:142 | Hidden over the package's own table is the rule with the bidi controls on |
| Hygiene.PyScan | scripts/sourcehygiene-scan.py:358-403 | the Python pass over code points returns the findings of the same rule |
| Hygiene.ScannersAgree | scripts/sourcehygiene-scan.py:349-403 | the two scanners return the same findings on every byte string, invalid UTF-8 included |
| Hygiene.RowsAgree | scripts/sourcehygiene-scan.py:153-157 | two ascending tables that hold the same rows, bidi aside, classify every code point alike |
| Hygiene.PositionIsUnique | internal/sourcehygiene/invisible.go:144-203 | line and column name one position, so equal findings are at equal places |
| Hygiene.CleanIffNoBadRune | internal/sourcehygiene/invisible.go:144-203 | nothing is found iff no rune stands out of place |
| Cleanness.CleanIff | internal/sourcehygiene/invisible.go:144-203 | a text is clean iff each rune is in its place: none in the listed ranges, written as numbers, nor among the nine bidi controls, a variation selector directly after a symbol, a joiner between symbols with a skin tone or an allowed selector between, U+FEFF only first, CR only before LF |
| Cleanness.ReportIs | internal/sourcehygiene/invisible.go:144-203 | the findings are, in the order of the text, one for each rune out of place: its line and column counted from the breaks before it, its code point and the rule it breaks |
| Cleanness.VerdictIs | internal/sourcehygiene/invisible.go:144-203 | at each position each reason is given exactly when its own rule is broken |
| Cleanness.RowOf | internal/sourcehygiene/invisible.go:57-99 | a code point has a row of the table iff it lies in one of the ranges, and then a row of the rule that the range has |
| Hygiene.CapacityBound | internal/sourcehygiene/invisible.go:24-35 | in a clean text selectors and joiners are each at most the visible symbols, at most one byte order mark, and no more CRs than LFs |
| Hygiene.InvisibleRunesCanOutnumberSymbols | internal/sourcehygiene/invisible.go:31-35 | the package comment's one visible symbol per invisible rune fails as a total even for selectors and joiners alone: a clean text with three of them on two symbols |
| Capacity.OnePerSymbolIff | internal/sourcehygiene/invisible.go:24-35 | in every clean text all four kinds of invisible rune together are within one per visible symbol iff the symbols with a joiner before and a selector after, the byte order mark and the CRs together do not outnumber the symbols that carry nothing; selectors and joiners are within two per symbol, the rest within one mark and one CR per LF |
| Capacity.ExactCapacity | internal/sourcehygiene/invisible.go:24-35 | the exact difference, all four kinds counted: invisible runes and bare symbols are as many as symbols, doubly carrying symbols, byte order mark and CRs together |
| Capacity.LoneMark | internal/sourcehygiene/invisible.go:24-35 | a lone byte order mark is clean: one invisible rune and no symbol |
| Capacity.NoBoundInSymbols | internal/sourcehygiene/invisible.go:24-35 | for every n, n line ends of CR and LF are clean, with n invisible runes and no symbol: the number of symbols bounds nothing |
| Sanitize.Sanitize | internal/homefragments/sanitize.go:102-104 | the in-place walk leaves the links well formed, the tree it should, nothing outside it changed, no attribute on any kept element |
| Sanitize.SanitizeChildren | internal/homefragments/sanitize.go:112-119 | the loop over siblings, whose list is rewritten under it, replaces each child by what it becomes |
| Sanitize.SanitizeNode | internal/homefragments/sanitize.go:123-168 | each branch on node type and name replaces the node, between its siblings, by what it becomes |
| Sanitize.Splice | internal/homefragments/sanitize.go:139-147 | the children of a dropped wrapper move, in order, to just before it, links well formed at every step |
| Sanitize.SanitizedIsFiltered | internal/homefragments/sanitize.go:74-101 | the survivors are exactly the allowed nodes and texts with nothing dropped above them, in document order, each under its surviving ancestors |
| Sanitize.LeftIff | internal/homefragments/sanitize.go:58-101 | a node is left iff it survives by itself and stands in no dropped subtree |
| Sanitize.OnlyAllowedAndTextIff | internal/homefragments/sanitize.go:102-168 | only allowed elements and text are left iff no document, error or raw node stands outside every dropped subtree |
| Sanitize.UnknownNodeIsKept | internal/homefragments/sanitize.go:160-166 | a document, error or raw node is kept where it stands, around its sanitized children, though the comment at lines 106-111 has any other node replaced by them |
| Sanitize.TextIsKept | internal/homefragments/sanitize.go:148-158 | the text left is the text outside the dropped subtrees, in order |
| Sanitize.SanitizeIsIdempotent | internal/homefragments/sanitize.go:102-168 | sanitizing a second time changes nothing |
| Sanitize.SanIsProper | internal/homefragments/sanitize.go:102-168 | the result is a tree again, no node twice, so a second run is allowed |
| Sanitize.AllowedAsWrittenIff | internal/homefragments/sanitize.go:125-134 | a kept element's name is in the list as written iff it is in lower case |
| Sanitize.KelvinSignIsAllowed | internal/homefragments/sanitize.go:125-134 | a name with U+212A, which lower-cases to `k`, is kept though the list does not hold it |
| SanitizePolicy.LeftByNameIff | internal/homefragments/sanitize.go:102-168 | a node is left iff it is a text, an element whose lower-cased name is one of the literally listed ones, or of unknown type, and nothing above it is a comment, a doctype or one of the eight forbidden elements |
| SanitizePolicy.NothingDroppedIsLeft | internal/homefragments/sanitize.go:127-129 | nothing at or below a forbidden element, a comment or a doctype is left |
| SanitizePolicy.TextIsLeft | internal/homefragments/sanitize.go:148-158 | every text with none of these above it is left |
| SanitizePolicy.InPlaceIs | internal/homefragments/sanitize.go:123-168 | between its siblings a forbidden node becomes nothing, an allowed one itself around its sanitized children, and any other element its children, in place |
| Html.RemoveChild | internal/homefragments/sanitize.go:123-168 | unlinking one child keeps every parent, child and sibling pointer of the document consistent |
| Html.InsertBefore | internal/homefragments/sanitize.go:139-147 | linking a loose node before a sibling keeps every pointer of the document consistent |
| StoreRuns.TablesAndMemory | internal/store/store.go:364-636 | after every run with failures at any statement, every persisted row is in memory with its value; in error-free runs the two coincide |
| StoreRuns.RunsKeepContained | internal/store/store.go:811-1063 | every call, whichever statement fails, a half-done reset included, keeps the rows inside the memory |
| StoreRuns.ErrorFreeRunsStaySynced | internal/store/store.go:217-357 | while no call fails, memory is what loading the tables would build |
| StoreRuns.RestartTransparency | internal/store/store.go:172-357 | in every error-free run, restarts inserted anywhere change no later answer |
| StoreRuns.RestartIsInvisibleIff | internal/store/store.go:217-357 | after any failures, a restart changes no answer iff no row is in memory only |
| StoreRuns.TaintIsMonotone | internal/store/store.go:811-827 | no call but a restart removes a rule from a pair's taint, except ResetDirty and Reset, which in the same step remove its receipt |
| StoreRuns.NoSolveOffAStaleReceipt | internal/store/store.go:696-719 | a once dirty pair that is clean and pending had a receipt delivered later: in runs without restart whatever fails, and in error-free runs with restarts; the mixed runs are StoreStale.SafeThroughoutIff |
| StoreRuns.FailureAndRestartForgetTaint | internal/store/store.go:811-827 | a failed MarkDirty and a restart: the taint is forgotten and the old receipt is pending and clean |
| StoreRuns.RestartKeepsTaintIff | internal/store/store.go:811-827 | a restart keeps a pair dirty iff one of its rules was persisted |
| StoreReads.TickIsRead | internal/store/store.go:403-426 | after a successful call the user's ticks are those before with this one added or removed, as asked, whatever stood there |
| StoreReads.HintIsRead | internal/store/store.go:364-379 | the call tells a first reveal from a repeat, and the user's views are those before and this one |
| StoreReads.SolveIsRead | internal/store/store.go:590-605 | the flag is true iff the pair was not solved, which it then is; its receipt is no longer pending, and the time of the first solve stays in memory and table |
| StoreReads.ReceiptIsRead | internal/store/store.go:624-645 | the pair has exactly this receipt, pending unless solved; the other pending receipts stay |
| StoreReads.RulesAreRead | internal/store/store.go:811-900 | a pair answers the rules it had and the new one, and an expected rule is known, even where the insert failed |
| StoreReads.NameIsRead | internal/store/store.go:455-479 | the name is answered, the user where it is empty |
| StoreReads.ProfileIsRead | internal/store/store.go:488-529 | each given field is answered from then on, one that is not given stays |
| StoreReads.ProfileResetIsRead | internal/store/store.go:534-556 | the name is the user's again and the avatar empty |
| StoreReads.PairResetIsRead | internal/store/store.go:950-982 | the pair is clean, has no receipt and none pending; the other pending receipts stay |
| StoreReads.WipeIsRead | internal/store/store.go:1028-1063 | the count is the number of solved pairs, and afterwards every question but the profiles' is answered as by a new store |
| StoreReads.NewStoreIsRead | internal/store/store.go:172-357 | a new store has nothing to tell |
| StoreReads.OthersStay | internal/store/store.go:364-1063 | every answer that a call does not concern is the same after it, whatever fails |
| StoreReads.FailsIff | internal/store/store.go:364-1063 | a call returns an error iff one of its statements fails |
| StoreReads.FailedCallsChangeNothing | internal/store/store.go:364-1063 | a failed call leaves tables and memory alone, but for the two kinds of rule, kept in memory, and the tables that a half-done reset emptied |
| StoreStale.RestartKeepsTheRuleIff | internal/store/store.go:217-357 | from any state that failures can lead to and in which the pair is dirty or has no receipt, a restart keeps it so iff the pair, when dirty, has a taint row or no receipt row in the tables |
| StoreStale.SafeThroughoutIff | internal/store/store.go:696-719 | in every run, failures and restarts mixed, until the pair's next receipt: no clean pair holds an old receipt at any point iff every restart met that test |
| StoreStale.SafeAtTheEnd | internal/store/store.go:696-719 | from any point of any run from a new database, a run whose restarts meet the test ends with the rule kept |
| StoreFires.CacheIsCorrect | internal/store/store.go:569-586 | after any history the bounded list answers every window of at most 300 s, asked at or after every fire, as the whole history would |
| StoreFires.AnswersAreHistory | internal/store/store.go:732-783 | on every run from a new database, both questions about a window of at most 300 s, asked at or after every fire, have the answers of the user's whole history since the last wipe |
| StoreFires.KeptAnswersAsHistory | internal/store/store.go:569-586 | the kept list needs no order of the fire times, only a question not before any of them |
| StoreFires.KeptIsBounded | internal/store/store.go:569-586 | the list of a user holds no fire more than 300 s older than the last one |
| StoreFires.CountIsHistory | internal/store/store.go:569-586 | the count is the number of fires since the last wipe, kept or not |
| StoreFires.FilterInPlace | internal/store/store.go:576-583 | the filter that overwrites its own backing array keeps exactly the recent fires, in order |
| StoreFires.FireLog.RecordRuleFire | internal/store/store.go:569-586 | the count goes up by one, the user's list becomes the recent part of the list and the new fire, every other list is untouched |
| StoreFires.FireLog.RecentRuleFires | internal/store/store.go:732-744 | the fires of the window, in arrival order |
| StoreFires.FireLog.RecentFiresMatching | internal/store/store.go:759-783 | the wanted rules that fired in the window, sorted, each once |
| Store.Store.constructor | internal/store/store.go:172-357 | opening a database rebuilds every mirror from its rows, in whatever order they come |
| Store.Store.MarkSolved | internal/store/store.go:590-605 | the first solve is stored in the table, then in memory; a repeat and a failed insert change nothing; answered so afterwards (StoreReads.SolveIsRead) |
| Store.Store.RecordExfil | internal/store/store.go:624-636 | the receipt replaces the pair's last one, table first; answered so afterwards (StoreReads.ReceiptIsRead) |
| Store.Store.RecordHintView | internal/store/store.go:364-379 | a first reveal is stored once, table first; answered so afterwards (StoreReads.HintIsRead) |
| Store.Store.SetStepCheck | internal/store/store.go:403-426 | a tick is set or cleared, table first; answered so afterwards (StoreReads.TickIsRead) |
| Store.Store.SetDisplayName | internal/store/store.go:455-467 | the name is written to the table, then to memory; an empty one answers the user (StoreReads.NameIsRead) |
| Store.Store.SetProfile | internal/store/store.go:488-529 | both fields land or neither, in the tables and in memory; answered so afterwards (StoreReads.ProfileIsRead) |
| Store.Store.ResetProfile | internal/store/store.go:534-556 | both fields go or neither; afterwards the name is the user and the avatar is empty (StoreReads.ProfileResetIsRead) |
| Store.Store.RecordRuleFire | internal/store/store.go:569-586 | memory only: the event count and the bounded list |
| Store.Store.RecentRuleFires | internal/store/store.go:732-744 | the fires of the window; in a store that a run led to, those of the user's whole history |
| Store.Store.RecentFiresMatching | internal/store/store.go:759-783 | the wanted rules that fired in the window, sorted, each once; in a store that a run led to, those of the user's whole history |
| Store.Store.MarkDirty | internal/store/store.go:811-827 | memory first: a failed insert leaves the taint in memory (StoreReads.RulesAreRead) |
| Store.Store.RecordExpectedRuleFire | internal/store/store.go:871-887 | memory first, as MarkDirty (StoreReads.RulesAreRead) |
| Store.Store.ResetDirty | internal/store/store.go:950-982 | taint and receipt go in one transaction, from memory only after its commit; no other pair is touched (StoreReads.PairResetIsRead) |
| Store.Store.Reset | internal/store/store.go:1028-1063 | six deletes outside a transaction: a failure leaves the earlier tables empty and memory whole; else all but the profiles is new (StoreReads.WipeIsRead) |
| Store.Store.PendingExfilSolves | internal/store/store.go:696-719 | the receipts of unsolved pairs, each once, in (user, challenge) order |
| Store.Store.DirtyRules | internal/store/store.go:835-848 | the pair's rules, sorted, each once |
| Store.Store.HasExfil | internal/store/store.go:640-645 | whether the pair's receipt is exactly this flag |
| Store.Store.HasExpectedRuleFire | internal/store/store.go:896-900 | whether any rule is recorded for the pair |
| Store.Store.DisplayName | internal/store/store.go:472-479 | the stored name, or the user where it is missing or empty |
| BoardRuns.NonInterference | internal/board/board.go:285-581 | two boards that agree on the threads a participant owns or can read answer every sequence of that participant's calls alike and agree again afterwards |
| BoardRuns.OthersAreUnseen | internal/board/board.go:654-691 | what another participant does to a thread that does not concern a participant leaves that participant's view as it was |
| BoardRuns.UnreadableIsUnknown | internal/board/board.go:420-428 | a thread the caller may not read answers GetThread and Like as an unknown id does; AppendOwnMessage refuses iff the thread is missing or another's |
| BoardRuns.HiddenThreadIsShownToItsAuthor | internal/board/board.go:534-581 | the package comment has a moderated thread refused alike; on a run from the empty board reading it is refused, and the author's append to it stores the message and returns it |
| BoardRuns.EveryReachableBoard | internal/board/board.go:285-774 | on every board a run from the empty one reaches, at every point, each thread has a message, participant messages are by the thread's author, likes are on public threads and never the author's, ids are distinct; author, audience, subject and time of creation never change from there on |
| BoardRuns.ListedIffRead | internal/board/board.go:336-414 | a thread is listed iff it can be read, with equal shared fields; the like status is equal unless the viewer is nobody and nobody's like is stored |
| BoardRuns.NobodysLike | internal/board/board.go:336-414 | a run from the empty board stores nobody's like: the listing for nobody calls the thread liked, reading it does not |
| BoardRuns.CountIsWhatIsShownIff | internal/board/board.go:336-386 | the listing's message count equals the messages shown iff none of the thread is hidden or deleted |
| BoardRuns.DeletedBodiesAreGone | internal/board/board.go:475-504 | a deleted message is shown to admins only and without its body; every other shown message is a stored one |
| BoardRuns.UnlikeUndoesLikeIff | internal/board/board.go:654-691 | a like taken back restores the board iff it was not there; liking twice is liking once |
| BoardRuns.CreatedIsRead | internal/board/board.go:285-323 | a new thread is read by its author, and by everybody iff it is public, with its one message, unpinned, unanswered and unliked |
| BoardRuns.AppendedIsRead | internal/board/board.go:534-635 | a follow-up and a reply stand, in their role, after the messages shown before; only a reply answers the thread |
| BoardReads.UpdatedIsLast | internal/board/board.go:336-386 | a thread's time of update is the time of one of its messages and not before any of them, or that of its creation where it has none |
| BoardReads.PinnedThenRecent | internal/board/board.go:336-386 | in a listing no unpinned thread stands before a pinned one and, pinned alike, none before one updated later |
| BoardReads.AppendGoesFirst | internal/board/board.go:534-635 | a follow-up or a reply later than every message on the board puts its thread before all others of the same pinned flag |
| BoardReads.ListingIs | internal/board/board.go:336-386 | the listing has exactly one row for each thread that the viewer may read: the thread's own fields, its count of messages and likes and the time of its last message |
| BoardReads.ReadIs | internal/board/board.go:393-414 | reading returns the thread's own fields, the messages shown, the number of likes and whether the viewer's is one; it succeeds iff the thread is the viewer's, or public and in sight, or the viewer is an admin |
| BoardReads.ShownAre | internal/board/board.go:475-504 | the messages shown are, in order, those of the thread that are visible, or all for an admin |
| BoardReads.CreateIs | internal/board/board.go:285-323 | what a new thread and its message hold, and that nothing else changes; an unknown audience changes nothing |
| BoardReads.AppendIs | internal/board/board.go:534-581 | a follow-up adds one visible message of the owner's and changes no thread |
| BoardReads.ReplyIs | internal/board/board.go:590-635 | a reply adds one visible admin message and sets the answered flag of its thread, nothing else |
| BoardReads.LikingIs | internal/board/board.go:654-678 | which error refuses a like, and that an accepted one is the only change |
| BoardReads.UnlikingIs | internal/board/board.go:685-691 | exactly this user's like of this thread goes |
| BoardReads.ModerationIs | internal/board/board.go:699-747 | each of the three fields that is given is set, and no other; the state is checked before the id |
| BoardReads.MessageModerationIs | internal/board/board.go:752-774 | the message's state changes and nothing else of it, and no other message |
| Board.Store.CreateThread | internal/board/board.go:285-323 | thread and first message in one step, or ErrInvalidAudience and nothing |
| Board.Store.ListThreads | internal/board/board.go:336-386 | every row the viewer may list, once, pinned first, then by latest message; ties in any order |
| Board.Store.GetThread | internal/board/board.go:393-414 | the thread with the messages this viewer gets and the like status, or ErrNotFound |
| Board.Store.LoadMessages | internal/board/board.go:475-504 | the row loop: visible messages for a participant, all for an admin, deleted bodies empty |
| Board.Store.AppendOwnMessage | internal/board/board.go:534-581 | one more message by the owner, or ErrNotFound and nothing |
| Board.Store.AppendAdminReply | internal/board/board.go:590-635 | one more admin message and the thread answered, in one step |
| Board.Store.LikeThread | internal/board/board.go:654-678 | the like is stored on a visible public thread of another author; else the matching error |
| Board.Store.UnlikeThread | internal/board/board.go:685-691 | this user's like of this thread is gone, nothing else |
| Board.Store.SetThreadState | internal/board/board.go:699-747 | exactly the given fields change; an unknown state or thread is refused; out of sight no participant reads the thread, and back in sight it is as before (BoardRuns.ModeratedIsUnread) |
| Board.Store.SetMessageState | internal/board/board.go:752-774 | exactly the message with the id changes its state; an unknown state or id is refused |
| TextOrigin.CleanIff | internal/apispec/specparity/textorigin.go:119-204 | the report is empty iff every mapping anywhere is declared as it should be, all keys are strings, every reference resolves and stands alone, every enum is typed, the walk reaches every string schema and at least one, and the static rules are silent |
| TextOrigin.CleanPlace | internal/apispec/specparity/textorigin.go:119-204 | with an empty report, a mapping at any path whose type is or holds `string` carries one of the six words (`TextOriginRules.VocabularyIs`), and no other carries the key |
| TextOrigin.ScanTells | internal/apispec/specparity/textorigin.go:493-545 | at every path of the document the blind scan reports exactly what is there |
| TextOrigin.ScanFinds | internal/apispec/specparity/textorigin.go:493-545 | the scan misses no place |
| TextOriginRoles.WalkIs | internal/apispec/specparity/textorigin.go:358-472 | for every document the structured walk reports a string schema, a reference or a typeless enum iff it stands at a path that a small grammar of places reaches: which key leads from which kind of object to which |
| TextOriginRoles.SchemaIs | internal/apispec/specparity/textorigin.go:371-387 | the same below any schema: through properties, items, additionalProperties and the three lists of alternatives, at any depth |
| TextOriginRoles.WalkDenotes | internal/apispec/specparity/textorigin.go:358-472 | everything the structured walk reports is so, at the place its pointer denotes |
| TextOriginRules.ScanIsExact | internal/apispec/specparity/textorigin.go:493-545 | the blind scan reports something iff some place of the document shows it, each kind of report spelt out on the keys of that place |
| TextOriginRules.ReferenceIff | internal/apispec/specparity/textorigin.go:212-219 | a reference is into a section iff it is `#/components/`, the section, a slash and one non-empty name |
| TextOriginRules.ResolvesIff | internal/apispec/specparity/textorigin.go:226-254 | a reference resolves iff it is into one of the five sections and its unescaped name is an entry there that is not null |
| TextOriginRules.WrittenReferenceResolvesIff | internal/apispec/specparity/textorigin.go:226-260 | the reference written for a section and a key, escaped, resolves iff that entry is there and not null |
| TextOriginRules.DeclaringIs | internal/apispec/specparity/textorigin.go:119-204 | a word's count is the number of nodes that declare it |
| TextOriginRules.PointerIs | internal/apispec/specparity/textorigin.go:256-260 | a pointer is a slash before each step, tildes and slashes escaped |
| TextOriginRules.IndexIsDecimal | internal/apispec/specparity/textorigin.go:299-332 | an index is written as its decimal numeral, without leading zeros |
| TextOriginWalk.ChildrenAreChildren | internal/apispec/specparity/textorigin.go:299-332 | each child schema stands at its keyword path |
| TextOriginReport.TextOriginOf | internal/apispec/specparity/textorigin.go:119-204 | the loops return the violations' lines, sorted, each as often as the code appends it, and count each word's declarations |
| TextOriginReport.LinesAreTheViolations | internal/apispec/specparity/textorigin.go:119-204 | the lines are of exactly the violations of the document, the two walks compared by pointer |
| TextOriginReport.EmptyReportIff | internal/apispec/specparity/textorigin.go:113-116 | the sorted report is empty iff there is no violation |
| TextOriginReport.TypelessPointersAre | internal/apispec/specparity/textorigin.go:119-204 | the typeless enums of both walks, each pointer once |
| Documents.PointerIsInjective | internal/apispec/specparity/textorigin.go:256-260 | two places of one document with the same JSON pointer are the same place |
| Documents.UnescapeUndoesEscape | internal/apispec/specparity/textorigin.go:235-258 | a reference's name is read back as it was escaped, tildes and slashes included |
| Documents.DecimalIsInjective | internal/apispec/specparity/textorigin.go:299-332 | list indices have distinct pointer segments, which need no escaping (`EscapeOfDecimal`) |
| Ingress.CoversIff | internal/apispec/ingressparity/ingressparity.go:141-176 | for every legal pattern and every entry, covers is true iff each path the pattern serves is admitted by the entry; for a fixed pattern that ends in a slash or in `{$}` it differs exactly where the entry is that path itself |
| Ingress.CoversMeans | internal/apispec/ingressparity/ingressparity.go:141-176 | one meaning for every legal pattern: every path is admitted; a fixed subtree is also covered by the entry that is its root, and a fixed `/{$}` is not |
| Ingress.CornersOfCovering | internal/apispec/ingressparity/ingressparity.go:141-176 | both corners on one Exact entry: a subtree covered by the entry that is its root only, and a fixed `/{$}` wholly admitted and not covered |
| Ingress.ElementWiseIff | internal/apispec/ingressparity/ingressparity.go:90-100 | Kubernetes' element-wise prefix is equality, or a text prefix that ends at a slash |
| Ingress.CoversFixedPathIff | internal/apispec/ingressparity/ingressparity.go:141-176 | for one fixed path covering is admission |
| IngressReach.ReachableInPart | internal/apispec/ingressparity/ingressparity.go:184-199 | a route can be reachable through an entry that does not cover it: for one value of its parameter, and, without any parameter, below the operator route at the root |
| IngressReach.ReachableIff | internal/apispec/ingressparity/ingressparity.go:90-100 | for every legal pattern, some path it serves is admitted by an entry iff the entry's elements match the pattern's segments, a parameter matching any non-empty one and a subtree any remainder |
| IngressReach.CoversFitsIff | internal/apispec/ingressparity/ingressparity.go:141-176 | covers is true iff the entry matches in that way and goes no deeper than the pattern's fixed part |
| IngressReach.CoversTellsReachabilityIff | internal/apispec/ingressparity/ingressparity.go:141-199 | for every legal pattern and entry, reachable and covered agree iff the entry does not match deeper than the fixed part |
| IngressReach.ForeignReachableIff | internal/apispec/ingressparity/ingressparity.go:221-237 | each route of a table taken by itself: one of another audience is reachable iff one is reported or an entry matches one deeper than its fixed part; what the mux really serves is IngressServe.EmptyReportIsServedIff |
| IngressReach.EmptyReportIsTheAnswerIff | internal/apispec/ingressparity/ingressparity.go:184-237 | each route taken by itself: an empty foreign report means that none of another audience is reachable iff no entry matches one deeper than its fixed part |
| IngressServe.OneRouteServes | internal/apispec/route.go:348-359 | on every table that the mux accepts, each clean request that some route asks for is served by exactly one route, unless it is redirected |
| IngressServe.PrecedesIff | internal/apispec/route.go:348-359 | a route's requests are a proper part of another's, the mux's precedence, iff its method and its segments say so one by one |
| IngressServe.ServedThroughIff | internal/scoreboard/view/view.go:307-318 | for every table of legal patterns and every entry, the mux serves a route through the entry, on some request of infinitely many, iff it serves it on one of finitely many candidate paths |
| IngressServe.CoversTellsServedIff | internal/apispec/ingressparity/ingressparity.go:141-199 | with precedence, redirects and clean paths: the test misses a route that is served through an entry iff a candidate gets through and the entry goes deeper than the fixed part, and it names one that is not served iff the entry matches no deeper and no candidate gets through |
| IngressServe.EmptyReportIsServedIff | internal/apispec/ingressparity/ingressparity.go:184-237 | for every table, an empty foreign report means that the mux serves no route of another audience through any entry iff none gets a candidate deeper than its fixed part |
| IngressServe.NoDeepFitNoForeign | internal/apispec/ingressparity/ingressparity.go:184-237 | for every table, an empty report and no deeper match mean that nothing foreign is served |
| IngressServe.PortalShieldsTheRoot | internal/scoreboard/view/view.go:229-239 | behind Exact `/portal` the route `GET /` matches deeper and is not served: `GET /portal` takes the path |
| IngressServe.RootIsServedBesideAssets | internal/scoreboard/view/view.go:307-318 | behind Prefix `/static/` the operator route `GET /` is served `/static`, with nothing reported |
| Ingress.CoverageDiff | internal/apispec/ingressparity/ingressparity.go:200-237 | the nested loops return the sorted uncovered and foreign lines |
| Ingress.DeadExact | internal/apispec/ingressparity/ingressparity.go:255-274 | the sorted Exact paths that no pattern equals |
| Ingress.UncoveredIff | internal/apispec/ingressparity/ingressparity.go:200-220 | for all tables of legal patterns, nothing is uncovered iff each participant route is covered in meaning by a single entry |
| Ingress.ForeignIff | internal/apispec/ingressparity/ingressparity.go:221-237 | for all tables of legal patterns, the operator route at the root included, nothing is foreign iff no entry covers in meaning a route of another audience |
| Ingress.DeadIsNotForeign | internal/apispec/ingressparity/ingressparity.go:239-274 | a dead Exact entry covers no route of any audience |
| IngressReport.AdmitsIff | internal/apispec/ingressparity/ingressparity.go:90-100 | an Exact entry admits its own path; a Prefix entry, less one trailing slash, that path and whatever follows it and a slash; any other kind nothing |
| IngressReport.UncoveredAre | internal/apispec/ingressparity/ingressparity.go:200-220 | before sorting the uncovered lines are, in the table's order, method and pattern of each participant route that no entry covers |
| IngressReport.ForeignIs | internal/apispec/ingressparity/ingressparity.go:221-237 | the foreign lines are those of each entry in turn: method, pattern, audience and entry of each route of another audience that the entry covers |
| IngressReport.DeadAre | internal/apispec/ingressparity/ingressparity.go:255-274 | before sorting the dead lines are, in order, the Exact paths that no route has as its pattern |
| Roster.NobodyIsBoth | cmd/auth-policy/main.go:28-50 | as deployed, no raw string is both an admin and resolved to a seat |
| Roster.NormalizeIsIdempotent | internal/authpolicy/roster.go:66-95 | normalising a normalised address changes nothing |
| Roster.NormalizedIsEmail | internal/authpolicy/roster.go:66-95 | every normalised address has a tidy local part and domain, folded where the domain is Google's |
| Roster.CanonicalResolves | internal/authpolicy/roster.go:240-260 | the canonical form of a rostered seat resolves to that seat |
| Roster.StampIsAFixedPoint | internal/authpolicy/server.go:256-260 | whoever resolves is stamped with a form that resolves alike |
| Roster.OutsidersNeedARow | internal/authpolicy/roster.go:240-260 | an address outside the reserved domains gets exactly the seat of its own external row, or none |
| Roster.ParseAcceptedIff | internal/authpolicy/roster.go:141-224 | a table is accepted iff the configuration is valid, there is a row, each row is good by itself and no two clash; the roster holds exactly the rows' seats and normalised addresses |
| Roster.ParsedIsGood | internal/authpolicy/roster.go:141-224 | an accepted roster has a reserved domain, valid seats that are no admins, and externals outside its domain that are no admins |
| Roster.ParseRoster | internal/authpolicy/roster.go:141-224 | the row loop with its maps accepts or names the first bad row and its defect |
| Roster.AdminIsNormal | internal/authpolicy/roster.go:146-156 | an accepted admin address is its own normal form, so that check of the parser never fails |
| Identity.NormalizeAdminEmails | internal/identity/identity.go:95-127 | the loop keeps the good entries in order and names the first bad one by its position and defect |
| Identity.AdminsAcceptedIff | internal/identity/identity.go:95-127 | the list is accepted iff each entry is blank or, trimmed and lower-cased, one plain address in a reserved domain |
| Identity.AdminsTwice | internal/identity/identity.go:95-127 | an accepted list is accepted again, unchanged |
| Identity.ValidatedConfig | internal/identity/identity.go:144-166 | a validated configuration names only reserved domains, and validating it again changes nothing |
| Identity.NormalizeOfDomain | internal/identity/identity.go:51-69 | a normalised domain is its own normal form |
| Identity.LastLabelIsLastElement | internal/identity/identity.go:75-84 | the text after the last dot is the last DNS label |
| AddressRules.TrimIs | internal/identity/identity.go:51-69 | trimming takes the white space off both ends and nothing else |
| AddressRules.DomainIs | internal/identity/identity.go:51-69 | a domain is its trimmed text in lower case, or the first of four faults: empty, not printable ASCII, an `@`, a dot at an end or two in a row |
| AddressRules.ReservedIs | internal/identity/identity.go:75-84 | a domain is reserved iff it is one of the five names or ends in a dot and one of them |
| AddressRules.SeatIs | internal/identity/seat.go:52-59 | a seat is one letter or digit, or two with at most 51 between them that may also be hyphens |
| AddressRules.AdminEntryIs | internal/identity/identity.go:95-127 | an entry is judged by the domain behind its one `@` and taken in lower case; `BlankOrShapeless` says which entries are blank or have no such shape |
| AddressRules.AdminsRefusedAt | internal/identity/identity.go:95-127 | the list is refused at position k with a defect iff entry k has it and none before has any |
| AddressRules.AddressIs | internal/authpolicy/roster.go:66-95 | an address is nothing where a part is empty, its lower case, or at the two Google domains its fold at gmail.com, nothing where that is empty; `NoAddress` says which texts have no such parts |
| AddressRules.DotIsDropped | internal/authpolicy/roster.go:80-92 | in the fold a dot before the first plus makes no difference; `TagIsDropped` and `OthersAreKept` say the same of a tag and of every other character |
| AddressRules.RefusedAtRow | internal/authpolicy/roster.go:171-224 | a table is refused at row k iff the rows before it would be accepted and k has that fault, the first of ten that applies |
| AddressRules.RefusedBeforeRows | internal/authpolicy/roster.go:141-170 | which tables are refused before any row: a bad configuration, or no row |
| AddressRules.AcceptedRowsLead | internal/authpolicy/roster.go:218-222 | in an accepted table each row's address leads to that row's seat |
| AddressRules.ResolvesIff | internal/authpolicy/roster.go:240-260 | who resolves to a seat: whoever normalises to its canonical form, or to an address of its row |
| AddressRules.AdminIff | internal/authpolicy/server.go:73-96 | who is an admin: whoever normalises to a listed address |
| AuthPolicy.WorkspaceOpensIff | internal/authpolicy/server.go:294-337 | a workspace opens iff the signed-in identity resolves to exactly that seat, and then carries the canonical headers and nothing of the upstream's |
| AuthPolicy.ParticipantOpensIff | internal/authpolicy/server.go:342-363 | the portal opens iff the identity is an admin or seated; whoever opens a workspace gets the same answer here |
| AuthPolicy.OperatorsReachNoSeat | internal/authpolicy/server.go:369-384 | nobody passes both the operator's door and a seat's |
| AuthPolicy.StampedAgain | internal/authpolicy/server.go:256-260 | the stamped headers, sent in again, get the same answer at both doors |
| AuthPolicy.StatusesAre | internal/authpolicy/server.go:265-384 | the status of each door: 400 for a bad seat name before anything else, 500, 401 or 502 as the subrequest failed, then 200 or 403; only an opened door sends headers |
| AuthPolicy.HeadersAre | internal/authpolicy/server.go:265-384 | what an opened door sends: the seat's canonical address and twice its name, or the upstream's address and those of its two names that are not empty, each header by its literal name |
| AuthPolicy.Handler.constructor | internal/authpolicy/server.go:73-96 | the admin set holds exactly what the configured addresses normalise to |
| AuthPolicy.Handler.CheckWorkspace | internal/authpolicy/server.go:294-337 | status and headers of the decision tree, in the code's order of checks |
| AuthPolicy.Handler.CheckParticipant | internal/authpolicy/server.go:342-363 | status and headers of the decision tree |
| AuthPolicy.Handler.CheckAdmin | internal/authpolicy/server.go:369-384 | 200 with the upstream's identity for an admin, else 403 or the upstream's failure |
| HintLeak.Check | internal/hintleak/hintleak.go:85-142 | the errors in order, each naming the first bad item; else each offending (target item, gram) once, with its hint sources, sorted by target and gram; empty iff every long common run is free |
| HintLeak.EmptyIff | internal/hintleak/hintleak.go:25-32 | the report is empty iff every run of ten or more characters that a hint and a target share lies, window by window, inside single free items |
| HintLeak.CleanIffRunsAreFree | internal/hintleak/hintleak.go:23-32 | no offending window iff every long common run is covered |
| HintLeak.GramSet | internal/hintleak/hintleak.go:145-157 | the windows of the text without white space, each once |
| HintLeak.GramIff | internal/hintleak/hintleak.go:145-157 | a gram is exactly a run of ten characters of the stripped item |
| HintLeakReport.StripKeeps | internal/hintleak/hintleak.go:145-157 | stripping keeps every character that is not white space, in order, and no other |
| HintLeakReport.BodyIs | internal/hintleak/hintleak.go:145-157 | an item is read as its code points without the white space, in order |
| HintLeakReport.ReportedIsLeak | internal/hintleak/hintleak.go:100-134 | each violation names a target item and a run of ten characters that it shares with some hint and with no free item, and exactly the hints that hold the run |
| HintLeakReport.LeakIsReported | internal/hintleak/hintleak.go:100-134 | every run of ten characters that a target shares with a hint and with no free item is reported for that target |
| HintLeakReport.OrderIs | internal/hintleak/hintleak.go:135-141 | the report is in the order of target and gram, each once |
| Strings.SortUnique | internal/hintleak/hintleak.go:135-141 | a sorted list without repeated keys is determined by its elements, so the order in which Go ranges over a map cannot be seen |
| Strings.LeIff | internal/hintleak/hintleak.go:135-141 | the order of texts is the lexicographic one: equal up to some point, and there ended or smaller |
| Strings.Sort | internal/hintleak/hintleak.go:135-141 | a sort returns the same elements, in order |

## Left out

- HTTP handlers and muxes other than the three auth doors, metrics, logs, environment parsing.
- SQL text, the SQLite driver and schema migrations: tables are maps, sets and sequences.
- yaml.v3, goldmark, regexp and the HTML parser and renderer: models start from decoded values and
  parsed trees; the roster starts from decoded rows, so the file, its size limit, the second
  document and unknown keys are not modelled.
- The Pod helpers of the chart reader (`extract_pod_specs`, `scan_containers`, `containers`,
  `container_names`, `security_context`, `as_list`) and the text of its error messages: one-branch
  checks over the values; Python's recursion limit.
- The allowlist, binary-path and directory-walk parts of the Python scanner: file-system I/O. The
  names and reasons printed with a finding are kept as one reason value.
- Grading, sweeping and rate limits around the store: only what the store itself guarantees is claimed.
- `HintViews` and `StepChecks` as methods: their answers are the step machine's, as sets; the
  per-challenge lists and their order are not modelled. `ExfilUsers`, `Snapshot`, `SolvedCount` and
  the stored times that no method reads back.
- Board SQL errors: a failed statement returns its error; after a commit a failed read returns an
  error with the message stored. `ValidID` and the id's shape.
- The message texts of `TextOrigin`'s report, which come in as a function of the violation, its list of
  nodes, and the two walks' accumulating closures: the walks are functions that return their list.
  The rules of `textorigin_static.go` come in as a parameter.
- The mux's multi-segment wildcards, host patterns, percent escapes and CONNECT requests; the target of
  its redirects; Helm rendering of the ingress.
- Response bodies and log lines of the auth doors; `/healthz`.
