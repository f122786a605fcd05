# Q-Agent: a verified model of its hard parts

Q-Agent writes, runs and repairs browser tests. A server plans the work; a Local Agent on the user's machine
runs it against a real browser; prototype screens run on a small template runtime. This project models the
parts of that system whose behaviour is hard to see from one function body, and proves what every run, every
input or every interleaving keeps. `dfyconfig.toml` lists its files.

The environment is never trusted. Browser, driver process, Claude, Playwright, server answers, the order of
threads and directory entries, interruptions and clocks are arbitrary inputs of each step, so each statement
holds for all of them unless it names a condition.

## The modules

**The template runtime** (`design/Q-Agent app design/support.js`). Five copies of this file are identical; one
is modelled.

- `Expr` and `ExprSyntax`: the expression evaluator that works directly on text. Its scans are methods with
  loops, its recursion is kept branch by branch, and it terminates on every string. `ExprSyntax` defines
  syntax trees with a meaning of their own; `ResolveShow` says that text evaluates to what the tree means.
- `Holes`, `Template`, `TemplateOutput`, `TemplateScope`, `ExprScope`: texts and attributes with `{{ }}` holes, the
  compiler from parsed trees to builder closures, a direct interpreter of the trees, what is seen of the output,
  and the scoping of loop names.
- `Stamping`: the pass that numbers elements.
- `AttrCodec`: how camel-case attribute names survive the HTML parser.
- `ContentKey`: the 32-bit hash, with JavaScript's ToInt32 (section 7.1.6 of ECMA-262 2020) written out.
- `Lifecycle`: mounting, hot-swapping and unmounting a component's logic instance.

**The Local Agent** (`agent/src`).

- `LiveResults`: streamed results racing the reconcile pass over the finished report.
- `ProjectBundle`, `Paths`: which paths are accepted, staging a shipped project, merging repaired files.
- `HealLoop`: the bounded self-heal loop over one reused work directory.
- `FixtureRewrite`, `FixtureTree`: the import rewrite in one text and over a directory tree.
- `DriverChannel`, `Exploration`, `ExplorationTrace`: the FIFO request channel to the browser driver, the
  observe/decide/act loop, and what it sends and reports.
- `Authoring`: Claude passes with pause and continue, the verify-and-fix loop, and the budget.
- `Report`, `SpecIdentity`: flattening a Playwright report, and spec file names.

**The server** (`api/app`).

- `ProgressHub`, `Registration`, `FinalEvent`: publishing threads, an event loop that connects, replays and
  broadcasts. `Hub` is the object; the interleavings are sequences of steps between the points where other code
  can run, and each method of the object is one of these steps, or a run of them.
- `Migration`: the resumable move of the flat artifact directories.

`Strings` and `Wrappers` hold trimming, character classes and `Option`.

Objects that change in place are classes whose methods state the whole new state by a specification function;
the theorems are lemmas about these functions over all sequences of calls. In `Authoring` and `Exploration`
the specification is a set of rules on a finished run (`Follows`), the method is proved to follow them, and
`OneSession` / `OneRun` prove that the rules leave no choice.

## Where a promise holds only under a condition

Each of these is proved for all inputs or all runs: as an if-and-only-if that names the condition, or as an
equation that says what happens instead. A second name is a run or an input in which the condition fails, or what
follows from it.

- A logic instance swapped by a second render before the first commit is unmounted without ever having been
  mounted: the component's flag starts out down (`Lifecycle.LifePairsUp`).
- Props are compared by the keys of one side: with an undefined value, other props can pass for the ones with
  which a constructor failed (`Lifecycle.ShallowEqualExactly`, `Lifecycle.UndefinedPropOverlooked`).
- A socket that connects again while a broadcast that could not reach it is still under way is taken off the run
  when that broadcast ends (`Registration.RegisteredExactly`).
- A publish that finds no open event loop caches its event but never sends it. If it was the last one, only
  sockets whose `connect` reads the cache afterwards receive it (`FinalEvent.ReceivedExactly`,
  `ProgressHub.DroppedEventIsLost`).
- Live results are joined by basename. Of two specs with one basename in different directories the later one
  gets the other's result (`LiveResults.StreamedResultJoins`).
- Of a spec with several tests the reconcile pass posts the first one's status (`Report.FirstTestDecides`).
- When a target is spelled with a slash and with a backslash in a bundle, a repaired library file is overwritten
  by the old one if the other spelling turned up later (`ProjectBundle.MergeThenStage`,
  `ProjectBundle.TwoSpellingsLoseTheRepair`).
- A run in time that writes no report reads the one an earlier attempt left; so a run that is cut off after
  writing a passing report lets a later attempt pass (`HealLoop.StalePassExactly`,
  `HealLoop.TimedOutReportPassesLater`).
- Two quoted package names that share a quote character are not both rewritten by the two passes
  (`FixtureRewrite.RewriteComplete`).
- A file whose POSIX name holds a backslash gets a specifier that climbs too far
  (`FixtureTree.SpecifierReachesRoot`).
- After a timeout the late reply settles the next request (`DriverChannel.ReplySettles`).
- An action answered with JSON `null` ends the exploration with the decision in the history but not counted as
  a step (`Exploration.HistoryLength`).
- After a fix pass that leaves the spec blank, the verification is about the blank file and the reported code
  is an older one (`Authoring.VerdictIsAboutReportedCode`).
- The session's ceiling bounds what passes report: a pass killed for a pause may report less than it spent, and
  the next one is given the difference again (`Authoring.CeilingHoldsExactly`); the source says so itself.
- A fresh authoring pass is handed the guidance history, and pending guidance only as far as the history holds
  it, unless the history is blank (`Authoring.HandedOver`).
- An attribute that begins and ends with a hole is no joined text, whatever stands between its holes: all of it
  is resolved as one expression (`Holes.WholeExactly`, `Holes.HolesReadAsOne`).
- A camel-case attribute of a DOM element that starts with `on` and a small letter changes its name
  (`AttrCodec.ElementAttrKeptExactly`).
- A ticket id whose last segment is empty or holds a line end does not come back from the file name
  (`SpecIdentity.FilenameRoundTrip`).

Whether a run's final event is also the last one a socket receives depends on the WebSocket library, which is not
part of this model: on whether `send_json` can suspend before its frame is written. If it cannot, reading the cache
and replaying what was read are one step, and the event is the last one (`FinalEvent.ReadAndSentAtOnce`). For any
library, `FinalEvent.ReceivedLastExactly` says exactly when it is.

## Model

| member | source | states |
|---|---|---|
| Expr.ParensWrapWhole | design/Q-Agent app design/support.js:235-245 | True exactly when no `)` before the last character brings the parenthesis depth back to zero. |
| Expr.FindTopLevelEquality | design/Q-Agent app design/support.js:246-260 | The first position outside all brackets where an equality operator starts that follows neither `=` nor `!` and has a non-blank left operand, with the operator read there, a longer one where it can be; nothing exactly when there is no such position. |
| Expr.MatchBracket | design/Q-Agent app design/support.js:274-284 | The scan stops at the `]` that closes the bracket opened before it, counting square brackets only, or at the end of the text. |
| Expr.ResolvePath | design/Q-Agent app design/support.js:261-292 | The loop computes the path's value from any position on, for any text: broken steps give `undefined`, null receivers give `undefined`. `resolve` and the path loop call each other and terminate on every string. |
| ExprSyntax.ResolveShow | design/Q-Agent app design/support.js:203-292 | For every expression tree (paths with `.x`, `.0` and `[e]`, literals, `!`, four equalities, parentheses, any white space around operators) whose literals hold no brackets, `=` or `!` and whose operands that are equalities are parenthesised: resolving the printed text gives the tree's own meaning, for every meaning of the host's operators. |
| ExprSyntax.OperatorsMean | design/Q-Agent app design/support.js:209-223 | In the host's operators only: for operands that are no bare equalities, the printed `l === r`, `l !== r`, `l == r` and `l != r` resolve to strict equality, its negation, loose equality and its negation of what the operands mean. |
| ExprSyntax.KeywordsMean | design/Q-Agent app design/support.js:225-228 | The four keyword texts resolve to true, false, null and undefined. |
| ExprSyntax.LiteralsMean | design/Q-Agent app design/support.js:229-232 | A number resolves to the number of its text; a text between single or double quotes to that text. |
| ExprSyntax.NumberExactly | design/Q-Agent app design/support.js:202 | A text is a number if and only if it is an optional minus sign, digits, and an optional point with digits. |
| ExprSyntax.NotMeans | design/Q-Agent app design/support.js:224 | `!` before an operand gives the negated truth value of what the operand means. |
| ExprSyntax.StepsMean | design/Q-Agent app design/support.js:266-286 | A step `.x`, `.0` or `[e]` gives undefined on a null or undefined receiver, and what the host finds under the key on any other. |
| ExprSyntax.NameExactly | design/Q-Agent app design/support.js:201 | A name is a letter, `$` or `_`, followed by any number of these and of digits, and nothing else is one. |
| ExprSyntax.FirstIsOperator | design/Q-Agent app design/support.js:246-260 | In a printed equality the scan finds the tree's own operator, not one inside an operand or a literal. |
| ExprSyntax.EqualityDoesNotWrap | design/Q-Agent app design/support.js:235-245 | `(l) op (r)` is not taken for one parenthesis. |
| ExprSyntax.CloseFromBalanced | design/Q-Agent app design/support.js:274-284 | From inside a computed step the scan reaches that step's own bracket, however deep the steps nest. |
| ExprScope.ResolveLocal | design/Q-Agent app design/support.js:203-292 | On every string: the value depends only on the bindings of the names that head its paths. |
| Holes.FirstHole | design/Q-Agent app design/support.js:376-379 | The first hole opens at the leftmost `{{` and closes at the nearest `}}` after at least one character; there is none exactly when no braces close after braces that open. |
| Holes.PartsOfPieces | design/Q-Agent app design/support.js:376-379 | Splitting a text written from literal pieces and holes gives exactly those pieces back, in turn; literal text may hold single braces, as long as no pair of them opens or closes a hole too early. |
| Holes.HoleAttr | design/Q-Agent app design/support.js:370-375 | An attribute that is one hole, with any white space around and inside the braces, has its expression's value, of whatever type. |
| Holes.WholeExactly | design/Q-Agent app design/support.js:370-375 | An attribute with holes is read as one hole if and only if only white space stands before its first hole, and only white space, or more text that ends in closing braces, after its last; what is then resolved runs from the first opening to the last closing braces. |
| Holes.MixedAttr | design/Q-Agent app design/support.js:370-380 | In every other case its value is the text with the holes' meanings filled in, null and undefined ones as nothing. |
| Holes.HolesReadAsOne | design/Q-Agent app design/support.js:371-375 | With only white space before the first and after the last hole, the value is that of the whole text from the first hole to the last, with whatever stands between them, as one expression. |
| Template.CompiledNode | design/Q-Agent app design/support.js:455-712 | For every node of every kind, environment and streaming flags the compiled builder renders what interpreting the node directly renders; a node has no builder exactly when it is silent (a comment, or white space without a plain blank). |
| Template.CompiledTemplate | design/Q-Agent app design/support.js:436-453 | Builders are numbered after the silent siblings are dropped; running them all is the interpretation of the whole forest. |
| Template.TextMeaning | design/Q-Agent app design/support.js:474-515 | A text node written from literal pieces and holes compiles to a fragment of the literals and of what is shown for each hole's evaluated expression; what that is, `TemplateOutput.TextChildren` says. |
| TemplateOutput.TextChildren | design/Q-Agent app design/support.js:481-513 | Of a compiled text node: the literals are its even children; of the odd ones an undefined hole is a marked span with the expression's own text while streaming or in the editor, and nothing otherwise; an element or a list is a child itself; null and booleans are nothing; any other value is a span with its text. |
| TemplateOutput.TextReads | design/Q-Agent app design/support.js:481-513 | If no hole is an element, a list, a boolean or marked as missing, the visible text of the compiled node (its texts and its spans, joined) is the text with the meanings of its holes filled in. |
| TemplateOutput.TextReadsAsAttr | design/Q-Agent app design/support.js:376-380 | And that is the value of an attribute written the same, unless it is read as one hole. |
| Template.NoPlaceholderLeft | design/Q-Agent app design/support.js:484-513 | Once streaming is over and no editor is open, no rendering of any template holds a stand-in for a missing value, inside loops, components and imports of any depth. |
| Template.PlaceholderRounds | design/Q-Agent app design/support.js:521-549 | A loop over something that is not an array renders its hinted number of rounds, each with the item undefined, while streaming, and none afterwards. |
| Template.LastAttrCounts | design/Q-Agent app design/support.js:688-708 | Of several attributes of an element under one key the last one sets the property, whatever was there before; an undefined `checked` is false and an undefined `value` is the empty text. |
| TemplateOutput.ElementProps | design/Q-Agent app design/support.js:688-712 | A compiled element has its tag and, under each attribute's key, the value of the last attribute written under it: as an object for a style, with an undefined `checked` as false and an undefined `value` as the empty text. |
| TemplateOutput.ElementStamped | design/Q-Agent app design/support.js:690-693 | It carries its React key and its stamp, unless an attribute is written under the same name. |
| TemplateOutput.ComponentProps | design/Q-Agent app design/support.js:574-588 | A prop of an imported component is set by the last attribute that sets it: one written under its name, or a `dcProps` object that has it. |
| TemplateOutput.ComponentOwnProps | design/Q-Agent app design/support.js:574-588 | A prop that no attribute sets is there only as one of the four the runtime passes itself, with key, hint size, stamp and positioning style. |
| TemplateOutput.ExternalShown | design/Q-Agent app design/support.js:619-672 | An outside component stands in its own box with class, stamp and style; it is loaded if and only if it was found under its global name, or else its export name, its URL holds no hole, and no prop of it is still undefined in streamed markup; otherwise the box holds a placeholder, with an error exactly when it was not found. |
| TemplateOutput.LoadedProps | design/Q-Agent app design/support.js:646-667 | The last of its own attributes that sets a prop of a loaded component decides it; those that name its source set none. |
| TemplateOutput.LoadedChildren | design/Q-Agent app design/support.js:612-613 | It has children exactly when an element or non-blank text stands between its tags: what these are rendered to. |
| TemplateOutput.LastUrlIs | design/Q-Agent app design/support.js:598-600 | Of several URLs separated by white space the last one is asked for the component. |
| TemplateScope.RenderingLocal | design/Q-Agent app design/support.js:474-712 | A rendering depends only on the node's free names, where a loop binds its item name and `$index` in its children and nowhere else. |
| TemplateScope.LoopNamesStayInside | design/Q-Agent app design/support.js:516-550 | Binding the item name and `$index` around a loop whose list does not mention them changes nothing of what the loop renders. |
| TemplateScope.LoopRounds | design/Q-Agent app design/support.js:538-549 | One round for each element of the list, in order; in round i `$index` is i, the item name is the element (unless the item name is `$index`, which is written last), and every other name is what it is around the loop. |
| Stamping.Stamper.Stamp | design/Q-Agent app design/support.js:441-447 | The counter hands a node the next number and its children the following ones, and ends past all of them. |
| Stamping.StampedIds | design/Q-Agent app design/support.js:441-447 | Over a whole forest the ids are start, start + 1, … in document order, so they are distinct. |
| Stamping.StampedErased | design/Q-Agent app design/support.js:441-447 | Apart from the ids the forest is unchanged. |
| AttrCodec.EncodedNameSurvives | design/Q-Agent app design/support.js:345-359 | Every name of the camel pattern, encoded, is unchanged by lower-casing and decodes to itself. |
| AttrCodec.ComponentAttrKept | design/Q-Agent app design/support.js:384-402 | Collected on a component, the attribute's key is the name that was written. |
| AttrCodec.ElementAttrKeptExactly | design/Q-Agent app design/support.js:384-408 | Collected on an element it is that name if and only if the name does not start with `on` followed by a small letter. |
| AttrCodec.EventAttr | design/Q-Agent app design/support.js:403-408 | An event attribute in small letters becomes a property that differs from it in capitals only, and has one right after `on`. |
| AttrCodec.SmallAttr | design/Q-Agent app design/support.js:403-409 | Every other attribute in small letters keeps its name, but for `class` and `for` on an element. |
| AttrCodec.DashedAttr | design/Q-Agent app design/support.js:399-402 | On a component, words joined by dashes arrive in camel case; an outside component gets its `aria-` and `data-` attributes as they are. |
| AttrCodec.ReservedNames | design/Q-Agent app design/support.js:386-398 | The two stamps are skipped, `hint-size` and `style-` attributes have their own meaning, and an element's attribute `on` throws. |
| ContentKey.StepExact | design/Q-Agent app design/support.js:677-679 | The sum in the loop stays exact as a number and its ToInt32 is congruent to 33 h + c modulo 2^32. |
| ContentKey.Hash | design/Q-Agent app design/support.js:677-679 | The signed loop value is a 32-bit number congruent to the unwrapped base-33 polynomial started at 5381. |
| ContentKey.PolynomialClosedForm | design/Q-Agent app design/support.js:677-679 | That polynomial is 5381·33^n plus every code unit at its power of 33. |
| ContentKey.TextReads | design/Q-Agent app design/support.js:680 | The text of a number, in every base from 2 to 36, reads as that number, most significant digit first. |
| ContentKey.TextInjective | design/Q-Agent app design/support.js:680 | `toString(base)` is injective for every base from 2 to 36. |
| ContentKey.KeysEqualExactly | design/Q-Agent app design/support.js:680 | Two keys are equal if and only if the lengths and the residues modulo 2^32 are. |
| Lifecycle.StreamableComponent.MakeLogic | design/Q-Agent app design/support.js:839-858 | A new instance of the class asked for; of the base class, with the failure remembered, when its constructor throws. |
| Lifecycle.StreamableComponent.ReconcileLogic | design/Q-Agent app design/support.js:875-891 | Keeps the instance when the class is unchanged or is the remembered failure for the same version and props; otherwise unmounts a mounted instance, swaps, and raises the flag. |
| Lifecycle.StreamableComponent.ComponentDidUpdate | design/Q-Agent app design/support.js:900-917 | Mounts a swapped instance at the first update without an error and with a template, otherwise updates a mounted one. |
| Lifecycle.StreamableComponent.ComponentWillUnmount | design/Q-Agent app design/support.js:918-927 | Unmounts the current instance exactly when the flag is down. |
| Lifecycle.TrackedStep | design/Q-Agent app design/support.js:839-927 | Every call keeps the invariant: the flag is down exactly while the current instance is mounted and not unmounted, every earlier mounted instance was unmounted, and all calls pair up. |
| Lifecycle.LifePairsUp | design/Q-Agent app design/support.js:839-927 | From construction to the final unmount, over every run: each instance is mounted at most once, unmounted at most once and only after that, updated only in between, and none is left mounted, if and only if no render before the first commit swapped the instance. |
| Lifecycle.FailedClassNotRetried | design/Q-Agent app design/support.js:847-850 | After a failed constructor the same class is tried again exactly when the registry version or the props have changed. |
| Lifecycle.RenderedClass | design/Q-Agent app design/support.js:839-891 | Over every life: after a render that shows the component, its instance has the registry's class if and only if that class is not remembered as failing for this version and these props; then it has the base class. A replaced instance is a new one, raises the flag, and its predecessor is told exactly if it was mounted; otherwise nothing changes. |
| Lifecycle.ShallowEqualExactly | design/Q-Agent app design/support.js:753-760 | When no value on the left is undefined, the comparison of props holds if and only if they are equal apart from the children. |
| Lifecycle.UndefinedPropOverlooked | design/Q-Agent app design/support.js:753-760 | With an undefined value it can hold of props with different keys. |
| Lifecycle.ErrorHoldsInstance | design/Q-Agent app design/support.js:815-830 | After a render error no render replaces the instance until the registry sends a notice. |
| ProgressHub.Hub.Register | api/app/ws.py:38-40 | On the object's fields it is the protocol's step `Connect`, from every state that they show: the first half of `connect`, before the cache is read. |
| ProgressHub.Hub.LastEvent | api/app/ws.py:44-45 | It is the step `ReadCache`: what it returns is what the socket's `connect` will replay, and nothing exactly when there is no replay. |
| ProgressHub.Hub.Cache | api/app/ws.py:66-69 | It is the step `Publish`: the event becomes its run's last one before any broadcast of it is scheduled. |
| ProgressHub.Hub.Broadcast | api/app/ws.py:54-62 | Uninterrupted, it is a run of the protocol from `Begin` over one send per registered socket to `Finish`: exactly the sockets whose send did not raise receive the event; of each run exactly those sockets stay registered that were and are not, for this run, among those whose send raised. |
| ProgressHub.Hub.Disconnect | api/app/ws.py:51-52 | One socket leaves one run; every other registration stays. It is the step `Leave`, and the step that follows a replay that raised. |
| Registration.RegisteredExactly | api/app/ws.py:36-62 | In every interleaving, once nothing is outstanding: a socket is registered for a run if and only if at some step it connected, with no failed send to it pending, and since then neither left nor had a send or a replay fail. |
| Registration.StayingSocketReceives | api/app/ws.py:36-75 | Such a socket was sent the run's cached event if and only if the event could be scheduled or its own `connect` read it from the cache. |
| Registration.NeverJoined | api/app/ws.py:36-62 | A socket that never connects to a run is never registered for it and receives nothing of it. |
| ProgressHub.ReachesStep | api/app/ws.py:38-75 | In every step of every interleaving: each registered socket has its run's last event, or that event is still on its way to it, or it could not be scheduled. |
| FinalEvent.ReceivedExactly | api/app/ws.py:38-75 | Once no publish, broadcast or replay is outstanding, a socket registered for a run was sent the run's cached event if and only if the event could be scheduled, or the socket's own `connect` read it from the cache. |
| ProgressHub.DroppedEventIsLost | api/app/ws.py:70-75 | A run in which neither holds: a publish without an open loop leaves a socket that connected earlier without the final event. |
| FinalEvent.ReceivedLastExactly | api/app/ws.py:38-75 | With one publisher per run, broadcasts begun in order and one at a time, and a socket that connects once, a scheduled final event is the last one the socket receives if and only if no replay of an older event to it was pending when it was sent. |
| FinalEvent.ReadAndSentAtOnce | api/app/ws.py:44-49 | When the replay is read and sent in one step of the event loop, it is always the last one received, however often the socket connects. |
| ProgressHub.FinalEventReceivedLast | api/app/ws.py:38-75 | It also is when no broadcast begins while a replay of its run was read and is not sent. |
| LiveResults.Reporter.PostCaseResult | agent/src/runner.ts:414-443 | Guards, counts and posts: a file posted before is ignored. |
| LiveResults.Reporter.Process | agent/src/runner.ts:445-520 | The run with its live lines and the reconcile pass, for every report outcome; the counts sent are the counters at its end. |
| LiveResults.EachSpecPostedOnce | agent/src/runner.ts:395-520 | For every job and interleaving each spec file is posted exactly once and no other file is; the counters are those of the posted statuses; progress never decreases. |
| LiveResults.ProgressEndsAt100 | agent/src/runner.ts:425-427 | The last progress is 100 if and only if the spec files are distinct. |
| LiveResults.PostedStatus | agent/src/runner.ts:445-514 | With distinct basenames each spec is posted as its first matching line before its turn says, else with its first report entry's status, else as failed; a line says pass exactly for `passed` and skipped exactly for `skipped`. |
| LiveResults.ProgressIsShare | agent/src/runner.ts:425-427 | Each post carries the share of specs posted by then, in whole percent rounded down. |
| LiveResults.BasenameIs | agent/src/runner.ts:392-395 | The basename is what follows the last slash; slashes at the end do not count. |
| LiveResults.LateLinesIgnored | agent/src/runner.ts:421-422 | Lines after the pass change nothing, so the counts of `postComplete` are final. |
| LiveResults.StreamedResultJoins | agent/src/runner.ts:392-395 | A streamed result reaches the spec it names if and only if no later spec has that basename under another path. |
| ProjectBundle.SafePathConfined | agent/src/projectBundle.ts:58-75 | Every accepted path, joined to the work directory and normalised, stays strictly below it and is the plain concatenation. |
| ProjectBundle.SafePathExactly | agent/src/projectBundle.ts:58-65 | A path is accepted if and only if it is proper segments (none empty, `.` or `..`) joined by slashes or backslashes, without a blank at its ends and without a drive letter. |
| ProjectBundle.MaterializeProject | agent/src/projectBundle.ts:86-99 | Over the cap nothing is written; otherwise the files are written in order and refused ones listed. |
| ProjectBundle.BundleStaged | agent/src/projectBundle.ts:86-99 | For every bundle without clashing paths: written plus skipped is the bundle's size, the skipped paths are those not accepted, in order, every target holds the last source shipped for it, and nothing else changes. |
| ProjectBundle.BytesByLimits | agent/src/projectBundle.ts:87-88 | The byte count is one for each character and one more from each of the three limits of UTF-8 on. |
| ProjectBundle.JobStaged | agent/src/runner.ts:242-268 | A job's tree without clashing paths: too large a project is reported with its size, else the first spec whose path is not accepted, else every target, of the project or of a spec, holds its last source, specs coming after the project. |
| ProjectBundle.SpecsInOrder | agent/src/runner.ts:255-268 | With clashing paths too: a spec is staged over what those before it left, and the first one that is not accepted or cannot be written ends the staging. |
| ProjectBundle.ClashExactly | agent/src/projectBundle.ts:69-75 | A write throws for a path whose segments are the first ones of a file's path, or the other way round. |
| ProjectBundle.MergeThenStage | agent/src/runner.ts:805-808 | Staging the merged bundle gives the tree of staging the old bundle and overwriting it with the library files, whatever the sources, if and only if of every target the spelling that occurs last in both lists is also the one that turned up last. |
| ProjectBundle.OneSpellingSuffices | agent/src/runner.ts:805-808 | In particular when no target is spelled in two ways. |
| ProjectBundle.MergeLookup | agent/src/runner.ts:805-808 | The merged list has one entry per path, with the last library source for it, else the last bundle source. |
| ProjectBundle.TwoSpellingsLoseTheRepair | agent/src/runner.ts:805-808 | With two spellings of one target (slash and backslash) the repair can be overwritten by the old source. |
| HealLoop.ProcessHealJob | agent/src/runner.ts:652-862 | At most `maxAttempts` runs, one numbered record each; the server is asked after every failed run but the last one allowed. The k-th staging holds the newest code and, for every library path, the newest source among the server's answers to the attempts before it, else the job's own; the final code is that of the last staging. The status is pass exactly when the last run passed; a pass is never read from an earlier attempt's report if timed-out runs, bundle and fixes write none. |
| HealLoop.ChainedNewest | agent/src/runner.ts:805-820 | Stages of which each carries the answer to the attempt before it hold the newest non-empty code and the newest library sources given so far, whatever came between. |
| HealLoop.PassesExactly | agent/src/runner.ts:713-735 | A run passes if and only if it is in time and the report then in the directory reads as entries of which the first with the spec's basename passed. |
| HealLoop.StagingKeepsReport | agent/src/runner.ts:242-268 | Staging over a used work directory leaves its `report.json` as it is when no staged file has that path. |
| HealLoop.CleanRun | agent/src/runner.ts:690-740 | An attempt passes only on a report it wrote itself, and leaves no passing report behind when it fails. |
| HealLoop.StalePassExactly | agent/src/runner.ts:690-740 | A run in time that writes no report passes if and only if the report left by an earlier attempt does. |
| HealLoop.TimedOutReportPassesLater | agent/src/runner.ts:713-728 | Two attempts in which this happens: the first is cut off after writing a passing report, the second writes none and passes. |
| FixtureRewrite.RewriteChangesModuleOnly | agent/src/playwrightConfig.ts:332-336 | For every text the two passes change only the module names inside quotes; all other text stays where it is. |
| FixtureRewrite.RemainsExactly | agent/src/playwrightConfig.ts:332-336 | A quoted module name is left in the result if and only if two of them shared a quote character. |
| FixtureRewrite.RewriteComplete | agent/src/playwrightConfig.ts:332-336 | Neither quoted form is left, and a second application changes nothing, if and only if no two of them share a quote. |
| FixtureRewrite.RewriteChangesExactly | agent/src/playwrightConfig.ts:337-341 | The text changes, and is reported as rewritten, if and only if it holds a quoted module name. |
| FixtureTree.FixtureTargets | agent/src/playwrightConfig.ts:240-263 | The recursive walk, entry by entry. |
| FixtureTree.TargetsExact | agent/src/playwrightConfig.ts:240-263 | For every tree it returns, once each, exactly the files that the flat rule on paths selects. |
| FixtureTree.SpecifierReachesRoot | agent/src/playwrightConfig.ts:275-278 | Resolved from the file's own directory, its specifier is the root `fixtures` module if and only if its path holds no backslash. |
| FixtureTree.ApplyFixtures | agent/src/playwrightConfig.ts:309-343 | Writes the shim, rewrites the selected readable files in place and returns the changed ones in order. |
| FixtureTree.FixturesApplied | agent/src/playwrightConfig.ts:309-343 | Over the whole directory: other files and the shim keep their text; no selected file names the package afterwards, and a second pass changes nothing, if and only if no file holds two quoted names sharing a quote. |
| DriverChannel.ExploreDriver.SendRequest | agent/src/runner.ts:1087-1105 | A request joins the end of the queue with its timer. |
| DriverChannel.ExploreDriver.OnLine | agent/src/runner.ts:1057-1072 | The first line announces readiness; every later one settles the oldest pending request, if there is one. |
| DriverChannel.ExploreDriver.OnTimeout | agent/src/runner.ts:1089-1093 | The request leaves the queue wherever it stands and settles as timed out. |
| DriverChannel.ExploreDriver.FailAll | agent/src/runner.ts:1074-1085 | Every pending request settles as closed, in order. |
| DriverChannel.EachRequestSettlesOnce | agent/src/runner.ts:1048-1117 | In every run: the queue is the unsettled requests in issue order, timers belong to exactly those, and each request settles at most once. |
| DriverChannel.ReplySettles | agent/src/runner.ts:1057-1072 | For a driver that answers in order, a reply settles its own request if and only if that one still waits; otherwise the oldest younger one that does. |
| DriverChannel.RepliesMatchRequests | agent/src/runner.ts:1048-1117 | Without timeout or exit the n-th reply settles the n-th request. |
| DriverChannel.LateReplyMismatch | agent/src/runner.ts:1089-1093 | After a timeout the late answer to command 0 settles request 1. |
| Exploration.Explore | agent/src/runner.ts:922-1038 | For every driver, server and sink: the run is the one the world's answers dictate, with its history, its calls in order, and its report. |
| Exploration.OneRun | agent/src/runner.ts:922-1038 | The stated rules leave exactly one run for each world. |
| Exploration.NothingForbiddenSent | agent/src/runner.ts:975-991 | No click and no fill is sent to the driver when state changes are not allowed. |
| ExplorationTrace.DecidedIsSent | agent/src/runner.ts:967-995 | What the driver is asked to do is exactly what the server decided, in order: every decision that does not end the session, except clicks and fills when state changes are not allowed. |
| ExplorationTrace.LogTells | agent/src/runner.ts:975-996 | Entry k of the log is about decision k: skipped when it was forbidden, else with what the driver answered, a throw being a failure. |
| ExplorationTrace.StopReasonTells | agent/src/runner.ts:929-1025 | The reported reason is that of the answer that ended the session: the step limit, a failed or repeated observation, a failed decision, a decision to stop with its own reason, or an error. |
| ExplorationTrace.SignatureTells | agent/src/runner.ts:940-944 | Two pages with addresses of one length have the same signature if and only if they show the same. |
| Exploration.NoPageTwice | agent/src/runner.ts:938-956 | At most `maxSteps` decisions, on pages with pairwise distinct signatures. |
| Exploration.EachAskCarriesHistory | agent/src/runner.ts:956-967 | The k-th request is made exactly once and carries exactly the k decisions before it. |
| Exploration.HistoryLength | agent/src/runner.ts:967-1009 | History is as long as `stepsTaken`, or one longer: exactly when the server was asked once more and answered with a decision that stops, or with an action that the driver answered with a non-object. |
| Exploration.DiscoveredExactly | agent/src/runner.ts:997-1006 | A selector is reported if and only if an executed action other than `goto` reported ok and its element was given by test id, else by role, else by selector; a route if and only if a `goto` reported ok and led there by URL, else by path, else by address. |
| Exploration.DiscoveredInOrder | agent/src/runner.ts:997-1006 | They are listed in the order of the steps. |
| Exploration.FinalizedOnce | agent/src/runner.ts:1027-1038 | The driver is closed once and the report posted once, in that order, after everything else. |
| Authoring.Engine.RunPass | agent/src/runner.ts:1599-1673 | A pass adds its reported cost to the session total and keeps the last session id seen. |
| Authoring.Engine.RunPasses | agent/src/runner.ts:1694-1759 | The first pass and one more for each pause the user continued, with the arguments planned from what was known then. |
| Authoring.Engine.Verify | agent/src/runner.ts:1776-1838 | Runs the file on disk, hands Claude each failure while attempts and budget last, and keeps the newest code that is not blank. |
| Authoring.Engine.Process | agent/src/runner.ts:1599-1860 | The session follows the rules; cost is the sum over all passes; `verified` is the last run's outcome; ok exactly when code exists and `verified` is not false. |
| Authoring.OneSession | agent/src/runner.ts:1599-1838 | The stated rules leave exactly one session for each world. |
| Authoring.FixesAreRun | agent/src/runner.ts:1776-1838 | At most three runs and two fix passes; fix passes come last, each answers a failed run, and each is followed by a run of what it left. |
| Authoring.VerdictIsAboutReportedCode | agent/src/runner.ts:1831-1838 | The last verification ran the code that is reported if and only if the last pass did not leave the spec blank. |
| Authoring.BudgetKept | agent/src/runner.ts:1727-1759 | If each pass spends within its budget and reports no more than it spent, and the server's remainder never exceeds ceiling minus what was reported, then over any number of pauses the reports stay within the ceiling, and the spending exceeds it by no more than what earlier passes left unreported. |
| Authoring.CeilingHoldsExactly | agent/src/runner.ts:1669-1673 | The ceiling holds whatever the last pass spends within its budget if and only if what earlier passes left unreported fits above that budget; when it is given the whole remainder, if and only if they reported all they spent. |
| Authoring.UnreportedSpendEscapes | agent/src/runner.ts:1669-1673 | A killed pass that reports nothing and an honest one after it can spend twice the ceiling. |
| Authoring.HandedOver | agent/src/authoringResume.ts:135-187 | The same session is resumed exactly when its id is known and its transcript is there, with all pending guidance; a fresh pass is handed all of the history, and all that is pending if and only if the history is blank or holds it already. |
| Authoring.RemindedOfNewest | agent/src/authoringResume.ts:135-153 | With nothing pending, a resumed session is handed the newest turn of the history that is not blank, and only it. |
| Authoring.EachPassArgs | agent/src/runner.ts:1694-1830 | The first pass gets the job's prompt and the ceiling; one that continues a pause the remainder the server named; a fix pass exactly the ceiling less what the passes before it reported, at least 0. Every later pass resumes the last announced session if and only if its transcript is there. |
| Migration.Workspace.MigrateKind | api/app/config.py:267-279 | One kind, stoppable before any change; nothing of other kinds moves. |
| Migration.Workspace.Migrate | api/app/config.py:250-284 | A run with any budget of changes: with the sentinel it changes nothing; finished, it leaves the final file system; with enough budget it finishes. |
| Migration.ChangeKeepsFinal | api/app/config.py:264-282 | No single change alters the file system that the migration ends in. |
| Migration.ResumedEqualsUninterrupted | api/app/config.py:250-284 | After any number of interruptions at any place and in any order of entries nothing is lost or replaced, and once the sentinel is written the file system is the one an uninterrupted run leaves. |
| Migration.FinalConserves | api/app/config.py:272-279 | A whole migration moves exactly the entries whose name is free in `shared/` and keeps all others; a second one changes nothing. |
| Report.Flattener.Walk | agent/src/report.ts:93-121 | The recursive walk appends a suite's results: its own specs, then its nested suites. |
| Report.Flattener.Parse | agent/src/report.ts:90-127 | All top-level suites in order. |
| Report.ResultsExplained | agent/src/report.ts:90-127 | One result per test in document order, with the file of the nearest enclosing level that names one, and of the last attempt in its list the status, the duration without its fraction and the error, whatever the earlier attempts were; a test without attempts has failed with duration 0 and no error. |
| Report.FirstTestDecides | agent/src/runner.ts:496-514 | The status posted for a spec is what the last attempt of one test says, the first in document order whose nearest file name has the spec's basename; it has failed when there is no such test, or no attempt at it. |
| SpecIdentity.GreedySplit | agent/src/report.ts:159 | The pattern matches at the last position where it can. |
| SpecIdentity.FilenameRoundTrip | agent/src/report.ts:137-164 | For every ticket and case code: parsing the file name gives back the short ticket and the code if and only if the short ticket is not empty and holds no line end. |
| SpecIdentity.LastSegmentIsLast | agent/src/report.ts:138-139 | The short ticket is what follows the last `-`. |
| SpecIdentity.ParsedExactly | agent/src/report.ts:157-164 | For every file name: a non-empty line, `-TC-` and digits before the optional suffix are read as short ticket and code; any other name is all short ticket, without a code. |

## Left out

- HTTP calls, processes, Playwright, Chrome, Claude and the file-system library: they are arbitrary outcomes, or maps from paths to contents.
- Server services whose code these modules only call (claiming, stale sweeps, heal planning, ownership), access checks, cookies, encryption, screens, routing, schemas and generated text.
- In the runtime: loading modules from URLs, Babel, pseudo-class styles, `cssToObj`, DOM parsing, React's scheduling, and the one-time console warnings of `warnUnresolved`. A template starts as a parsed tree with collected attributes; which component an `x-import` resolves to is a function of the host.
- Template.CompiledNode: a helmet renders nothing, and what it mounts in the document's head is not modelled; an `x-import` always has its box, since every element is stamped before it is compiled.
- `encodeCase` on whole markup: only the attribute names it encodes are modelled, not that its pattern also matches inside attribute values and text; the `RAW_WRAP` tag aliases are not modelled.
- JavaScript values: property getters with side effects and thrown exceptions inside operators are not modelled; `Js` and `Host` are pure functions. Names inherited from `Object.prototype` are whatever the environment binds.
- Characters: Dafny characters are Unicode scalar values, so lone surrogates are not represented; `ContentKey` works on UTF-16 code units. Case conversion in `AttrCodec` is ASCII only.
- Stamping.Stamper.Stamp: returns numbered nodes instead of changing DOM nodes in place; only the counter is updated in place.
- ContentKey: the stripping of attributes from the cloned element is not modelled; the key is a function of the markup text.
- ProgressHub.Hub.Broadcast: states the uninterrupted broadcast; interleaved ones are the steps `Begin`, `SendOk`, `SendFail` and `Finish` of the state machine.
- ProgressHub.FinalEventReceivedLast: its condition on replays is sufficient only; the exact one is in `FinalEvent.ReceivedLastExactly`, for a socket that connects once.
- FinalEvent.ReceivedLastExactly: speaks of final events that could be scheduled; one that could not is covered by `FinalEvent.ReceivedExactly`.
- Lifecycle: state carried over by a swap, error texts and the registry's subscriptions are not modelled.
- LiveResults: durations, error texts and the upload of evidence are not modelled; `failAllResults` is not.
- LiveResults.PostedStatus: speaks of specs with distinct basenames; what happens otherwise is `LiveResults.StreamedResultJoins`.
- ProjectBundle: symbolic links, file permissions and Windows paths are not modelled; a path that needs a file to be a directory makes the write throw.
- ProjectBundle.MergeThenStage: compares trees, not the count of files written; both bundles are taken to be under the cap, and no accepted path runs through another one.
- HealLoop: installing the base framework, the generated configuration and fixtures, evidence and progress events are not modelled.
- Exploration.Explore: the messages inside log entries are not modelled, and `JSON.stringify` of a snapshot is taken as given text.
- Authoring.Engine.Process: the summary text, credentials, the discovered routes and the polling of a parked session are not modelled; a wait is one answer, and waiting ends after finitely many continued pauses.
- Authoring.Engine.Verify: a pause asked for during a fix pass is not parked by the source either; the fix pass counts as done.
- Migration.Workspace.Migrate: a move of one entry is atomic; a half-copied move across file systems is not modelled.
- Report.Flattener.Walk: attachments are not modelled, nor status names inherited from `Object.prototype`.
- `pauseWaitVerdict`, `buildPassArgs`, the log buffer, version and path lookups: single branches that would only add easy members.
