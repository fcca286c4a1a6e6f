# Verified models of the agent's and the sample application's trickiest logic

This Dafny project models compact but intricate pieces of the Elastic APM .NET agent and of the ASP.NET sample
application beside it, and proves what each of them is for. `dafny verify dfyconfig.toml` checks everything.

Code that changes state is modelled as classes and methods with loops, each proved against a function on its state;
the properties are then proved about those functions. Beside them stand
lemmas that say the same of the fields, characters and elements themselves, so that function and method cannot go wrong
together. Code that runs on several threads is modelled as a state machine
whose steps may interleave in any way.

| file | what it models |
|---|---|
| ConcurrentInserts.dfy | the concurrent database test: two branches and a two-party barrier, under any scheduler, for any number of iterations and any assignment of roles |
| DbTracing.dfy | the tracer's current span and the database listeners, as objects sharing it |
| DbNesting.dfy, DbInFlight.dfy | commands announced to several listeners, one announcement inside another, as trees of any depth; and what ids already in flight do to them |
| DbEvents.dfy, DbReactions.dfy | four listeners on one tracer under any sequence of events; and what each event does, on the fields |
| DbAccounting.dfy | one listener's dictionary of spans in flight, its callbacks interleaved on any number of threads |
| OffsetParser.dfy, OffsetRoundTrip.dfy | Popper's offset expressions: the parser and evaluator, and printing and parsing back |
| PreventOverflow.dfy, Flip.dfy, Modifiers.dfy | Popper's modifiers that keep the popper inside its boundaries and choose its side, and the chain they run in |
| HtmlSanitizer.dfy, HtmlSafety.dfy | Bootstrap's in-place HTML sanitizer, and what it leaves of a document |
| ScrollSpy.dfy | Bootstrap's scroll spy index and lookup |
| JsonFlattener.dfy, JsonPaths.dfy, JsonDocuments.dfy | the JSON value provider: flattening, keys and paths, and the two together |
| RemoteValidator.dfy, RemoteRuns.dfy, RemoteAnswers.dfy | jQuery Validate's remote checks and deferred submits, whole runs of them, and what an answer does to what comes after it |
| CreditCard.dfy | jQuery Validate's credit card rule |
| Disposal.dfy, DisposalRuns.dfy, DisposalTheorems.dfy | composite disposables disposed by any number of threads |
| LinePrefixer.dfy, LineRoundTrip.dfy | the trace target that prefixes every line |
| Sampler.dfy | the transaction sampler |
| Sequences.dfy, Wrappers.dfy | shared facts about sequences and digits; option and result types |

## What the proofs found

- A submit that was put off for remote checks can be lost. When the last good answer arrives, `stopRequest` validates
  the form again; if that starts a new check, the repeated submit is put off once more, but `stopRequest` then clears
  `formSubmitted`, so nothing remembers it. `RemoteRuns.LastAnswer` gives the exact condition and `RemoteRuns.LostIsReached`
  a run that meets it. If instead a field fails at that moment, the submit stays put off and a later good answer sends the
  form without the user asking again.
- A call of `stopRequest` that matches no request does no harm exactly when nothing is pending (`RemoteRuns.HarmlessIff`).
  After a harmful one a validated submit can go through while a check is under way: exactly when every field passes, none
  would be asked about, and the counter is at zero while a request is not answered (`RemoteRuns.TooEarlyIff`, and
  `RemoteRuns.StopTooEarlyIff` for a deferred submit). `RemoteRuns.StrayLetsThrough` is a run in which this happens to a
  valid form.
- A database command whose id is already in flight leaves everything as it was if and only if its listener looks away
  because the competing family's span is current or, for Elasticsearch, there is no transaction
  (`DbInFlight.RestoredIff`). Otherwise its own span stays open in no
  dictionary, while its end closes the span of the other command (`DbInFlight.SpanLeaks`).
- Popper's clockwise and counterclockwise flip orders leave out the side the popper is on, which the loop waits for, so
  these two behaviours never flip anything (`Flip.AroundNeverFlips`).
- A dot in a property name, or an empty name, can make a JSON request fail with a duplicate key although it is within the
  limit (`JsonDocuments.NamesCollide`). Exactly when a document flattens, whatever its names, is `JsonDocuments.FlattenedIff`.
- The sampler's interval is computed from the rate as given while `Rate` is rounded, so a positive rate is reported as
  0.0001 and samples nothing exactly when it is below 2^-63 (`Sampler.SampledAccurately`). The documentation in the source
  speaks of the rounded rate only; the model follows the code.
- `preventOverflow` clamps a popper along an axis exactly when it fits, or does not stick out at the far side, or the near
  side comes last in the priority list (`PreventOverflow.ClampsIff`).

## Model

| member | source | states |
|---|---|---|
| ConcurrentInserts.BodyByPosition | sample/AspNetFullFrameworkSampleApp/Controllers/HomeController.cs:294-311 | the step table used by the state machine is, position by position, the program each branch runs in an iteration: barrier waits around both contained inserts, and the interceptor's waits around the containing one |
| ConcurrentInserts.CheckRows | sample/AspNetFullFrameworkSampleApp/Controllers/HomeController.cs:268-286 | the final check passes exactly for the sequence whose i-th triple is contained.before, containing, contained.after with alternating roles |
| ConcurrentInserts.FourWaitsPerIteration | sample/AspNetFullFrameworkSampleApp/Controllers/HomeController.cs:294-311 | each branch crosses exactly four barriers an iteration and the two insert three rows |
| ConcurrentInserts.OneInserter | sample/AspNetFullFrameworkSampleApp/Controllers/HomeController.cs:393-406 | a branch working on an insert finds the other in the same iteration, and not inserting |
| ConcurrentInserts.NextRow | sample/AspNetFullFrameworkSampleApp/Controllers/HomeController.cs:302-309 | the row a branch is about to insert is the next one in the demanded order |
| ConcurrentInserts.InvStep | sample/AspNetFullFrameworkSampleApp/Controllers/HomeController.cs:290-313 | every step of either branch keeps the synchronisation invariant |
| ConcurrentInserts.RunsAreOrdered | sample/AspNetFullFrameworkSampleApp/Controllers/HomeController.cs:290-313 | at every moment of every run the rows are a prefix of the demanded sequence and no two inserts are executing at once |
| ConcurrentInserts.NoDeadlock | sample/AspNetFullFrameworkSampleApp/Controllers/HomeController.cs:260-264 | while a branch has work left, one of the two can move |
| ConcurrentInserts.RunsComplete | sample/AspNetFullFrameworkSampleApp/Controllers/HomeController.cs:264-286 | no run has more than 22 steps an iteration, and one that cannot go on has exactly these: both branches done, four crossings each and three rows an iteration in the demanded order |
| ConcurrentInserts.RunsContinue | sample/AspNetFullFrameworkSampleApp/Controllers/HomeController.cs:264-286 | any partial run can be continued to completion |
| DbTracing.Tracer.StartSpan | src/Elastic.Apm/Model/Span.cs:80-122 | a new span becomes current and remembers the span that was; without span or transaction nothing starts |
| DbTracing.Tracer.End | src/Elastic.Apm/Model/Span.cs:285-337 | only the first end makes the parent current |
| DbTracing.Tracer.EndSpan | src/Elastic.Apm/Model/DbSpanCommon.cs:36-64 | ending a span twice, as the database code does, is ending it once |
| DbTracing.SqlClientDiagnosticListener.OnNext | src/Elastic.Apm.SqlClient/SqlClientDiagnosticListener.cs:36-59 | what an event does to tracer and dictionary: nothing while an EF span is current |
| DbTracing.SqlClientDiagnosticListener.HandleStartCommand | src/Elastic.Apm.SqlClient/SqlClientDiagnosticListener.cs:61-78 | a span is started and added under the operation id if the id is new |
| DbTracing.SqlClientDiagnosticListener.HandleStopCommand | src/Elastic.Apm.SqlClient/SqlClientDiagnosticListener.cs:80-103 | the span found under the id is removed and ended; an unknown id changes nothing |
| DbTracing.SqlClientDiagnosticListener.HandleErrorCommand | src/Elastic.Apm.SqlClient/SqlClientDiagnosticListener.cs:105-130 | the same, also when the payload has no command |
| DbTracing.SqlEventListener.OnEventWritten | src/Elastic.Apm.SqlClient/SqlEventListener.cs:44-71 | the event source's counterpart, with its own dictionary |
| DbTracing.EfCoreDiagnosticListener.OnNext | src/Elastic.Apm.EntityFrameworkCore/EfCoreDiagnosticListener.cs:28-69 | nothing while a SqlClient span is current; start, end and error otherwise |
| DbTracing.Ef6Interceptor.StartSpan | src/Elastic.Apm.EntityFramework6/Ef6Interceptor.cs:57-139 | a span is kept in the context's user state unless a SqlClient span is current or there is no transaction |
| DbTracing.Ef6Interceptor.EndSpan | src/Elastic.Apm.EntityFramework6/Ef6Interceptor.cs:141-157 | the context's span is ended; a context without one changes nothing |
| DbTracing.ElasticsearchListener.OnNext | src/Elastic.Apm.Elasticsearch/ElasticsearchDiagnosticsListenerBase.cs:37-54 | without a transaction nothing happens; otherwise an activity's start starts a span and its stop ends the span found |
| DbTracing.ElasticsearchListener.TryStartElasticsearchSpan | src/Elastic.Apm.Elasticsearch/ElasticsearchDiagnosticsListenerBase.cs:56-79 | a span is handed out exactly when there is a transaction and the id is new; with an id in use it has been started all the same |
| DbTracing.ElasticsearchListener.TryGetCurrentElasticsearchSpan | src/Elastic.Apm.Elasticsearch/ElasticsearchDiagnosticsListenerBase.cs:89-102 | the span under the id is handed out and removed; an unknown id changes nothing |
| DbReactions.SqlClientReacts | src/Elastic.Apm.SqlClient/SqlClientDiagnosticListener.cs:36-130 | on the fields: unless an EF span is current, a start in a transaction opens exactly one span under the current one and adds it if the id is new; a stop, or an error even without its command, takes the id out and closes the span found, whose parent becomes current |
| DbReactions.EventSourceReacts | src/Elastic.Apm.SqlClient/SqlEventListener.cs:44-158 | the same for event 1 with four and event 2 with three payload items, and nothing for any other event |
| DbReactions.EfCoreReacts | src/Elastic.Apm.EntityFrameworkCore/EfCoreDiagnosticListener.cs:28-69 | the same for EF Core, unless a SqlClient span is current or the payload is of another class |
| DbReactions.Ef6Reacts | src/Elastic.Apm.EntityFramework6/Ef6Interceptor.cs:57-157 | the same for EF 6, whose user state is overwritten by a start and kept by an end |
| DbReactions.ElasticsearchReacts | src/Elastic.Apm.Elasticsearch/HttpConnectionDiagnosticsListener.cs:18-28 | in a transaction, and only in one, an activity's start opens exactly one span and its stop closes the span under its id |
| DbReactions.StopEndsItsStart | src/Elastic.Apm.Elasticsearch/ElasticsearchDiagnosticsListenerBase.cs:56-102 | whatever events come between, to whatever listeners, the span of an activity is not ended before the activity's own stop, and is by that |
| DbNesting.BeginAccepts | src/Elastic.Apm.EntityFrameworkCore/EfCoreDiagnosticListener.cs:30-46 | by kind of command, Elasticsearch calls among them: a start is accepted exactly when the other family's span is not current and there is something to start on; else nothing changes |
| DbNesting.EndMatchesBegin | src/Elastic.Apm.SqlClient/SqlClientDiagnosticListener.cs:38-59 | after any body that restored the system, the matching end is accepted exactly when the start was, and restores it again |
| DbNesting.RunRestores | src/Elastic.Apm.SqlClient/SqlClientDiagnosticListener.cs:36-130 | for every well-nested command tree with ids not in flight: every accepted span is ended once, all dictionaries and the current span return to what they were, and the number of spans is the one read off the tree |
| DbNesting.RunAllRestores | src/Elastic.Apm.EntityFrameworkCore/EfCoreDiagnosticListener.cs:28-69 | the same for any sequence of trees |
| DbNesting.OtherFamilySuppressed | src/Elastic.Apm.EntityFramework6/Ef6Interceptor.cs:64-68 | commands of one family inside a span of the other add no span, at any depth |
| DbNesting.OneSpanPerCall | src/Elastic.Apm.EntityFrameworkCore/EfCoreDiagnosticListener.cs:30-46 | an accepted command carried out by the competing family counts exactly once |
| DbNesting.SqlListener | src/Elastic.Apm.SqlClient/SqlClientDiagnosticSubscriber.cs:21-32 | one listener for SqlClient, chosen by platform |
| DbNesting.OneFamilyBelow | src/Elastic.Apm.SqlClient/SqlClientDiagnosticSubscriber.cs:21-32 | with one SqlClient listener, and no listener hearing of a call twice, the announcements below one family's are all the other family's |
| DbNesting.CallShapes | src/Elastic.Apm.EntityFrameworkCore/EfCoreDiagnosticListener.cs:30-46 | a command of one family carried out by the other, and either alone, are such calls |
| DbNesting.OneSpanEach | src/Elastic.Apm.SqlClient/SqlClientDiagnosticSubscriber.cs:21-32 | on either platform any number of database calls in a transaction add exactly one span each, whatever the nesting of their announcements |
| DbInFlight.RestoredIff | src/Elastic.Apm.SqlClient/SqlClientDiagnosticListener.cs:36-130 | for every kind of command and every body, everything is put back if and only if the id is not in flight or the listener looks away |
| DbInFlight.RunFinishes | src/Elastic.Apm.EntityFrameworkCore/EfCoreDiagnosticListener.cs:39-67 | a command with an id in flight ends the span that was in the dictionary and takes the id out |
| DbInFlight.SpanLeaks | src/Elastic.Apm.EntityFrameworkCore/EfCoreDiagnosticListener.cs:39-67 | its own span stays open; the current span becomes the parent of the other command's span, or stays its own if that one had been ended |
| DbInFlight.DistinctIsFresh | src/Elastic.Apm.SqlClient/SqlClientDiagnosticListener.cs:61-130 | ids that differ down every path and are not in flight, and EF 6 contexts that are new, are never found in flight |
| DbInFlight.DistinctRestores | src/Elastic.Apm.EntityFramework6/Ef6Interceptor.cs:127-157 | commands whose ids meet that condition, which can be checked before any of them runs, put everything back |
| DbEvents.StepKeeps | src/Elastic.Apm.SqlClient/SqlClientDiagnosticListener.cs:61-130 | whatever one listener does keeps every span in exactly one place: one dictionary, ended once, or dropped |
| DbEvents.EventsAccounted | src/Elastic.Apm.EntityFrameworkCore/EfCoreDiagnosticListener.cs:28-69 | under any sequence of events to four listeners sharing the tracer every span they start is in a dictionary, ended, or dropped, and in one of them only; the numbers add up |
| DbEvents.NoSpanEndedTwice | src/Elastic.Apm.Elasticsearch/ElasticsearchDiagnosticsListenerBase.cs:37-102 | from the start, with unmatched ends, duplicate ids and errors in any order, no span is ended twice and none in flight has been ended |
| DbAccounting.BooksBalance | src/Elastic.Apm.SqlClient/SqlClientDiagnosticListener.cs:61-130 | under any interleaving of start, add, take and end, the invariant of the books is kept |
| DbAccounting.AnyRunBalances | src/Elastic.Apm.SqlClient/SqlClientDiagnosticListener.cs:61-130 | for arbitrary events on any threads, started == in flight + in hand + ended + dropped, no span is ended twice, and no span in flight has been ended |
| DbAccounting.BeginTakesActions | src/Elastic.Apm.SqlClient/SqlEventListener.cs:96-101 | what a listener's start does is a start and an add of those books, dropping the span exactly on a duplicate id |
| DbAccounting.FinishTakesActions | src/Elastic.Apm.SqlClient/SqlEventListener.cs:137-158 | what a listener's end does is a take and an end of those books, or nothing |
| OffsetParser.Aggregate | sample/AspNetFullFrameworkSampleApp/Scripts/bootstrap.bundle.js:3263-3278 | the reduce with its merge flag gives a sign after an empty fragment to the fragment that follows |
| OffsetParser.SumItems | sample/AspNetFullFrameworkSampleApp/Scripts/bootstrap.bundle.js:3286-3292 | the loop adds what is numeric, negated exactly after a minus |
| OffsetParser.ParseOffset | sample/AspNetFullFrameworkSampleApp/Scripts/bootstrap.bundle.js:3229-3294 | each list is evaluated on the axis that placement and position choose; a missing second list gives 0 |
| OffsetRoundTrip.SplitSum | sample/AspNetFullFrameworkSampleApp/Scripts/bootstrap.bundle.js:3239-3241 | splitting a printed sum at its signs gives its terms and operators with their white space |
| OffsetRoundTrip.ListsOfOne | sample/AspNetFullFrameworkSampleApp/Scripts/bootstrap.bundle.js:3245-3256 | a single printed sum is recognised as one list |
| OffsetRoundTrip.ListsOfTwo | sample/AspNetFullFrameworkSampleApp/Scripts/bootstrap.bundle.js:3245-3256 | two sums joined by a comma are cut into their two lists |
| OffsetRoundTrip.ListsOfApart | sample/AspNetFullFrameworkSampleApp/Scripts/bootstrap.bundle.js:3245-3256 | two sums with white space between them, no comma, are cut into their two lists |
| OffsetRoundTrip.AggregateClean | sample/AspNetFullFrameworkSampleApp/Scripts/bootstrap.bundle.js:3266-3278 | the fold tells the signs of terms from the operators between them |
| OffsetRoundTrip.TermToken | sample/AspNetFullFrameworkSampleApp/Scripts/bootstrap.bundle.js:3177-3216 | a printed term, also one that is zero, is worth its value in its unit: a hundredth of the reference's or the popper's height or width for each percent, of the window's for vh and vw |
| OffsetRoundTrip.ListValueOfClean | sample/AspNetFullFrameworkSampleApp/Scripts/bootstrap.bundle.js:3259-3292 | the value of a list of fragments is the arithmetic sum of its terms |
| OffsetRoundTrip.ParsedPrint | sample/AspNetFullFrameworkSampleApp/Scripts/bootstrap.bundle.js:3229-3294 | parsing any printed expression, of one list or two, joined by a comma or by white space, returns the arithmetic sum on each axis |
| OffsetRoundTrip.AxesMatter | sample/AspNetFullFrameworkSampleApp/Scripts/bootstrap.bundle.js:3234-3237 | unless the placement is left or right, x depends on widths and y on heights only, apart from the window; with left and right it is the other way round |
| OffsetRoundTrip.RadixWorth | sample/AspNetFullFrameworkSampleApp/Scripts/bootstrap.bundle.js:2613-2615 | text that is a hexadecimal, octal or binary numeral counts as the number it stands for |
| OffsetRoundTrip.SpacesByCode | sample/AspNetFullFrameworkSampleApp/Scripts/bootstrap.bundle.js:3239-3241 | the white space trimmed off is exactly that of ECMAScript |
| PreventOverflow.GetClientRect | sample/AspNetFullFrameworkSampleApp/Scripts/bootstrap.bundle.js:1921-1927 | right and bottom follow from position and size, which are kept |
| PreventOverflow.Prevent | sample/AspNetFullFrameworkSampleApp/Scripts/bootstrap.bundle.js:3382-3405 | the loop applies the checks of the priority list one after another |
| PreventOverflow.LoopSettles | sample/AspNetFullFrameworkSampleApp/Scripts/bootstrap.bundle.js:3382-3405 | the loop in closed form for every priority list, whether the popper fits or not |
| PreventOverflow.LoopClamps | sample/AspNetFullFrameworkSampleApp/Scripts/bootstrap.bundle.js:3382-3405 | with all four sides in the list, in any order and with repeats, a popper that fits is clamped to the boundaries |
| PreventOverflow.ClampsIff | sample/AspNetFullFrameworkSampleApp/Scripts/bootstrap.bundle.js:3382-3405 | with all four sides in the list, exactly when the loop clamps, for every popper |
| PreventOverflow.InsideIffFits | sample/AspNetFullFrameworkSampleApp/Scripts/bootstrap.bundle.js:2386-2390 | once right and bottom are refreshed, the popper is inside exactly when it fits |
| PreventOverflow.SecondRunKeeps | sample/AspNetFullFrameworkSampleApp/Scripts/bootstrap.bundle.js:3400-3405 | running the modifier again, with any priority list, changes nothing |
| PreventOverflow.EscapeKeeps | sample/AspNetFullFrameworkSampleApp/Scripts/bootstrap.bundle.js:3383-3397 | with escapeWithReference the popper stays where it is |
| Flip.AcceptableIsClear | sample/AspNetFullFrameworkSampleApp/Scripts/bootstrap.bundle.js:3097-3106 | a side is acceptable when the popper clears the reference and stays within the boundaries, and only if it does so to a pixel |
| Flip.Search | sample/AspNetFullFrameworkSampleApp/Scripts/bootstrap.bundle.js:3086-3131 | the loop over the flip order, for any order, takes the turns one after another |
| Flip.SideAbsent | sample/AspNetFullFrameworkSampleApp/Scripts/bootstrap.bundle.js:3086-3089 | a current side that is not in the order changes nothing |
| Flip.AroundNeverFlips | sample/AspNetFullFrameworkSampleApp/Scripts/bootstrap.bundle.js:3032-3038 | the clockwise and counterclockwise orders omit the current side and so never change the popper |
| Flip.SearchEnds | sample/AspNetFullFrameworkSampleApp/Scripts/bootstrap.bundle.js:3086-3131 | for an order without a side twice the loop is a search from the current side on |
| Flip.AcceptableStays | sample/AspNetFullFrameworkSampleApp/Scripts/bootstrap.bundle.js:3115-3130 | a side that is acceptable to begin with is kept, for any order |
| Flip.EndsOnFirstAcceptable | sample/AspNetFullFrameworkSampleApp/Scripts/bootstrap.bundle.js:3086-3131 | the search ends on a side exactly when it is the first acceptable one, or the last if none is; earlier modifiers run again at most length - 1 times |
| Flip.Modify | sample/AspNetFullFrameworkSampleApp/Scripts/bootstrap.bundle.js:3053-3132 | for each of the four behaviours; the inner modifier, and having come back to the original placement, leave everything as it is |
| Flip.FlipsToFacing | sample/AspNetFullFrameworkSampleApp/Scripts/bootstrap.bundle.js:3053-3132 | on coordinates, for the flip behaviour: a popper that overlaps the reference or overflows goes to the facing side, its variation turns round when it overflows along the other axis, and otherwise nothing changes |
| Flip.CustomSearches | sample/AspNetFullFrameworkSampleApp/Scripts/bootstrap.bundle.js:3079-3081 | a custom order is searched as it is given |
| Modifiers.RunModifiers | sample/AspNetFullFrameworkSampleApp/Scripts/bootstrap.bundle.js:2375-2396 | the enabled modifiers with a function, up to the named one, are folded over the data, completed before each |
| Modifiers.RunsBefore | sample/AspNetFullFrameworkSampleApp/Scripts/bootstrap.bundle.js:2376 | with a name, exactly the modifiers before the first of that name run; without one, all do |
| Modifiers.FoldedPlus | sample/AspNetFullFrameworkSampleApp/Scripts/bootstrap.bundle.js:2378-2394 | a chain goes on with what the modifiers before have made of the data |
| Modifiers.DisabledDoesNotMatter | sample/AspNetFullFrameworkSampleApp/Scripts/bootstrap.bundle.js:2383-2391 | taking a disabled modifier, or one without a function, out of the chain changes nothing |
| Modifiers.NeverReenters | sample/AspNetFullFrameworkSampleApp/Scripts/bootstrap.bundle.js:2350-2377 | what the modifiers of the named one's name do makes no difference to a chain run up to it, so flip never enters itself |
| Modifiers.MissingName | sample/AspNetFullFrameworkSampleApp/Scripts/bootstrap.bundle.js:2375-2377 | a name that is not in the list takes the last modifier off the chain |
| Modifiers.PreventsLast | sample/AspNetFullFrameworkSampleApp/Scripts/bootstrap.bundle.js:2386-2392 | whatever the modifiers before it do, preventOverflow clamps a popper that fits |
| HtmlSanitizer.ListFor | sample/AspNetFullFrameworkSampleApp/Scripts/bootstrap.js:2717 | an element may have what is listed for every element and what is listed for its name |
| HtmlSanitizer.AllowedAttribute | sample/AspNetFullFrameworkSampleApp/Scripts/bootstrap.js:2669-2691 | an attribute is allowed if its name is listed (with a safe URL where it holds one) or matches a listed pattern |
| HtmlSafety.AllowedIsSafe | sample/AspNetFullFrameworkSampleApp/Scripts/bootstrap.js:2669-2691 | allowed is, said of the whitelist: listed by name for all elements or this one, with a safe URL if the name is one of the eight URL attributes, or else matched by a listed pattern |
| HtmlSafety.ToLowerLetters | sample/AspNetFullFrameworkSampleApp/Scripts/bootstrap.js:2670 | a capital becomes the small letter at its place in the alphabet, and nothing else changes |
| HtmlSanitizer.SanitizeAttributes | sample/AspNetFullFrameworkSampleApp/Scripts/bootstrap.js:2716-2722 | exactly the allowed attributes are left, in their order |
| HtmlSanitizer.Visit | sample/AspNetFullFrameworkSampleApp/Scripts/bootstrap.js:2707-2723 | one turn takes an unlisted element out of its parent and no other, or filters the attributes of a listed one |
| HtmlSanitizer.SanitizeHtml | sample/AspNetFullFrameworkSampleApp/Scripts/bootstrap.js:2705-2731 | the in-place loop over the snapshot leaves exactly the recursively pruned tree, for a document of any shape |
| HtmlSanitizer.EditedIsPruned | sample/AspNetFullFrameworkSampleApp/Scripts/bootstrap.js:2707-2729 | a document edited node by node hangs together as the pruned forest |
| HtmlSanitizer.PruneIsClean | sample/AspNetFullFrameworkSampleApp/Scripts/bootstrap.js:2711-2722 | no unlisted element and no attribute not allowed survives, at any depth |
| HtmlSanitizer.PruneKeepsExactlyClean | sample/AspNetFullFrameworkSampleApp/Scripts/bootstrap.js:2707-2723 | a clean document is left unchanged, and no other |
| HtmlSanitizer.PruneIdempotent | sample/AspNetFullFrameworkSampleApp/Scripts/bootstrap.js:2693-2732 | sanitizing twice is sanitizing once |
| HtmlSafety.PruneKeepsSurviving | sample/AspNetFullFrameworkSampleApp/Scripts/bootstrap.js:2705-2731 | at every depth and in document order, what is left is exactly each element and text all of whose elements are whitelisted, and of those elements exactly the safe attributes |
| HtmlSafety.UnchangedIffAllSurvive | sample/AspNetFullFrameworkSampleApp/Scripts/bootstrap.js:2705-2731 | a document is left unchanged exactly when everything in it is whitelisted and safe |
| ScrollSpy.Sort | sample/AspNetFullFrameworkSampleApp/Scripts/bootstrap.js:3746-3750 | sorting by offset keeps every entry |
| ScrollSpy.SortIsStable | sample/AspNetFullFrameworkSampleApp/Scripts/bootstrap.js:3746-3750 | entries with the same offset keep their order |
| ScrollSpy.EntriesInOrder | sample/AspNetFullFrameworkSampleApp/Scripts/bootstrap.js:3731-3745 | each link with a visible target gives its entry, in the order of the page, and no other does |
| ScrollSpy.Spy.Refresh | sample/AspNetFullFrameworkSampleApp/Scripts/bootstrap.js:3718-3755 | the two lists are the visible targets sorted by offset, still paired |
| ScrollSpy.Spy.Process | sample/AspNetFullFrameworkSampleApp/Scripts/bootstrap.js:3801-3839 | what is active afterwards, and that it is announced exactly when it changed |
| ScrollSpy.Spy.Search | sample/AspNetFullFrameworkSampleApp/Scripts/bootstrap.js:3830-3838 | the loop activates the target of the last offset not exceeding the position, or nothing above the first |
| ScrollSpy.ActiveIsLast | sample/AspNetFullFrameworkSampleApp/Scripts/bootstrap.js:3801-3839 | below the bottom the last offset not exceeding the position decides, with equal offsets and whatever was active before |
| ScrollSpy.BottomIsLast | sample/AspNetFullFrameworkSampleApp/Scripts/bootstrap.js:3810-3818 | at the bottom of the page the last target is active |
| ScrollSpy.TopIsCleared | sample/AspNetFullFrameworkSampleApp/Scripts/bootstrap.js:3820-3826 | above the first offset what was active is cleared, if that offset is below the top of the page |
| ScrollSpy.ScrollingDown | sample/AspNetFullFrameworkSampleApp/Scripts/bootstrap.js:3830-3838 | scrolling down never goes back to an earlier target |
| JsonFlattener.EntryLimitedDictionary.Add | sample/AspNetFullFrameworkSampleApp/Mvc/JsonNetValueProviderFactory.cs:113-119 | the counter rises first; too many entries and duplicate keys fail and store nothing |
| JsonFlattener.AddToBackingStore | sample/AspNetFullFrameworkSampleApp/Mvc/JsonNetValueProviderFactory.cs:35-55 | the recursion adds the document's pairs in order and stops at the first failure |
| JsonFlattener.PutAllDistinct | sample/AspNetFullFrameworkSampleApp/Mvc/JsonNetValueProviderFactory.cs:113-119 | distinct keys are all stored within the limit; past it exactly the first limit are |
| JsonFlattener.AddedIffDistinct | sample/AspNetFullFrameworkSampleApp/Mvc/JsonNetValueProviderFactory.cs:113-119 | adding succeeds exactly when the pairs fit and no two keys are the same to the comparer |
| JsonPaths.ParseKeyOfPath | sample/AspNetFullFrameworkSampleApp/Mvc/JsonNetValueProviderFactory.cs:98-102 | parsing the key of a path returns the path, for names non-empty and free of dots and brackets |
| JsonPaths.KeySpelled | sample/AspNetFullFrameworkSampleApp/Mvc/JsonNetValueProviderFactory.cs:98-102 | the key built step by step is the path spelt out, and empty only for the root |
| JsonPaths.DecimalPlain | sample/AspNetFullFrameworkSampleApp/Mvc/JsonNetValueProviderFactory.cs:98 | the index in a key has no leading zero |
| JsonDocuments.KeysInjective | sample/AspNetFullFrameworkSampleApp/Mvc/JsonNetValueProviderFactory.cs:91-102 | two keys are the same to the case-insensitive comparer exactly when their paths are |
| JsonDocuments.LeavesAreReached | sample/AspNetFullFrameworkSampleApp/Mvc/JsonNetValueProviderFactory.cs:35-55 | the leaves listed are those that paths lead to, where a name leads to an entry of that name and a number to the item with so many before it |
| JsonDocuments.LeavesOrdered | sample/AspNetFullFrameworkSampleApp/Mvc/JsonNetValueProviderFactory.cs:35-55 | the leaves are listed in document order: where two paths part, the earlier one takes the earlier entry or item |
| JsonDocuments.LeavesDistinct | sample/AspNetFullFrameworkSampleApp/Mvc/JsonNetValueProviderFactory.cs:35-55 | leaf paths differ, ignoring case, when siblings do |
| JsonDocuments.FlattenedLeaves | sample/AspNetFullFrameworkSampleApp/Mvc/JsonNetValueProviderFactory.cs:35-119 | flattening succeeds exactly when the leaf count is within the limit; otherwise exactly the first limit leaves are stored |
| JsonDocuments.FlattenedIsDocument | sample/AspNetFullFrameworkSampleApp/Mvc/JsonNetValueProviderFactory.cs:35-102 | the dictionary holds each leaf under the key of its path and nothing else, and its keys parse back to the paths |
| JsonDocuments.FlattenedIff | sample/AspNetFullFrameworkSampleApp/Mvc/JsonNetValueProviderFactory.cs:35-119 | for any document and any names, flattening succeeds exactly when the leaves are within the limit and no two of their keys are the same to the comparer |
| JsonDocuments.NamesCollide | sample/AspNetFullFrameworkSampleApp/Mvc/JsonNetValueProviderFactory.cs:101-118 | in a document of one property beside another's property, the keys collide exactly when the one is spelt like the path to the other |
| RemoteValidator.Validator.StartRequest | sample/AspNetFullFrameworkSampleApp/Scripts/jquery.validate-vsdoc.js:810-815 | a name is counted once while it is pending |
| RemoteValidator.Validator.Remote | sample/AspNetFullFrameworkSampleApp/Scripts/jquery.validate-vsdoc.js:1044-1092 | a value asked about before gets its old answer, a pending name waits, anything else is sent |
| RemoteValidator.Validator.Check | sample/AspNetFullFrameworkSampleApp/Scripts/jquery.validate-vsdoc.js:578-620 | a field fails at its first failing rule; waiting is no failure |
| RemoteValidator.Validator.CheckForm | sample/AspNetFullFrameworkSampleApp/Scripts/jquery.validate-vsdoc.js:377-399 | the form is valid when no field fails, all having been checked in turn |
| RemoteValidator.Validator.OnSubmit | sample/AspNetFullFrameworkSampleApp/Scripts/jquery.validate-vsdoc.js:69-104 | a submit goes through, is put off, or is refused |
| RemoteValidator.Validator.StopRequest | sample/AspNetFullFrameworkSampleApp/Scripts/jquery.validate-vsdoc.js:817-831 | one request less, and a submit that was put off is repeated or given up |
| RemoteValidator.Validator.OnResponse | sample/AspNetFullFrameworkSampleApp/Scripts/jquery.validate-vsdoc.js:1071-1089 | the answer is remembered before the request is stopped |
| RemoteAnswers.CheckExactly | sample/AspNetFullFrameworkSampleApp/Scripts/jquery.validate-vsdoc.js:1044-1067 | on the fields: when a check sends a request and what that changes, and when it passes |
| RemoteAnswers.AnswerIsRemembered | sample/AspNetFullFrameworkSampleApp/Scripts/jquery.validate-vsdoc.js:1056-1061 | after an answer, a check of the same value sends nothing and gives that answer |
| RemoteAnswers.AnswerExactly | sample/AspNetFullFrameworkSampleApp/Scripts/jquery.validate-vsdoc.js:1071-1089 | on the fields: what an answer changes unless it is the last good one a submit waits for; a bad last answer gives the submit up |
| RemoteAnswers.StopExactly | sample/AspNetFullFrameworkSampleApp/Scripts/jquery.validate-vsdoc.js:817-831 | the same for stopRequest |
| RemoteAnswers.RejectedStaysOut | sample/AspNetFullFrameworkSampleApp/Scripts/jquery.validate-vsdoc.js:1056-1089 | once the server has rejected a value, no form with that value is submitted, in any run of checks, answers, submits and stray stops; only submits that skip validation get through |
| RemoteAnswers.AnswerDecidesSubmit | sample/AspNetFullFrameworkSampleApp/Scripts/jquery.validate-vsdoc.js:69-104 | from the start, a submit, its answer, and a second submit: both go through after a good answer, and none after a bad one |
| RemoteAnswers.GoesThroughIff | sample/AspNetFullFrameworkSampleApp/Scripts/jquery.validate-vsdoc.js:96-101 | while stops match requests, a validated submit goes through exactly when no request is under way and every field passes its rules and has its very value approved |
| RemoteAnswers.PutOffIff | sample/AspNetFullFrameworkSampleApp/Scripts/jquery.validate-vsdoc.js:96-99 | a submit is put off exactly when the fields pass so far and an answer is awaited or about to be |
| RemoteAnswers.CancelledGoesThrough | sample/AspNetFullFrameworkSampleApp/Scripts/jquery.validate-vsdoc.js:92-95 | a cancelled submit goes through without validation, once, and changes nothing else |
| RemoteAnswers.LastGoodAnswer | sample/AspNetFullFrameworkSampleApp/Scripts/jquery.validate-vsdoc.js:823-825 | the last good answer sends a deferred submit through exactly when every field passes its rules and has its very value approved |
| RemoteRuns.NextKeeps | sample/AspNetFullFrameworkSampleApp/Scripts/jquery.validate-vsdoc.js:810-831 | every event keeps the counter's invariant, with or without stray stops |
| RemoteRuns.HarmlessIff | sample/AspNetFullFrameworkSampleApp/Scripts/jquery.validate-vsdoc.js:817-822 | an unmatched stop keeps the counter and the names right exactly when nothing is pending |
| RemoteRuns.AnyRunBounded | sample/AspNetFullFrameworkSampleApp/Scripts/jquery.validate-vsdoc.js:817-822 | with unmatched stops anywhere, 0 <= counter <= names pending, and validated submits go through at zero only |
| RemoteRuns.MatchedRunExact | sample/AspNetFullFrameworkSampleApp/Scripts/jquery.validate-vsdoc.js:69-104 | when unmatched stops, if any, find nothing pending, the counter is the number of names pending, and a validated submit goes through only with no request under way |
| RemoteRuns.FormTwice | sample/AspNetFullFrameworkSampleApp/Scripts/jquery.validate-vsdoc.js:377-399 | validating an unchanged form again sends nothing and gives the same verdict |
| RemoteRuns.LastAnswer | sample/AspNetFullFrameworkSampleApp/Scripts/jquery.validate-vsdoc.js:823-830 | exactly when a deferred submit goes through, is lost, or stays deferred, when the last answer is good |
| RemoteRuns.LostIsReached | sample/AspNetFullFrameworkSampleApp/Scripts/jquery.validate-vsdoc.js:823-825 | a run that loses a deferred submit: one field is answered while another had not been asked about |
| RemoteRuns.ThroughIffReady | sample/AspNetFullFrameworkSampleApp/Scripts/jquery.validate-vsdoc.js:96-101 | a validated submit goes through exactly when every field passes, none would be asked about, and the counter is at zero |
| RemoteRuns.TooEarlyIff | sample/AspNetFullFrameworkSampleApp/Scripts/jquery.validate-vsdoc.js:96-101 | it goes through with a request under way exactly when besides a request is unanswered |
| RemoteRuns.StopTooEarlyIff | sample/AspNetFullFrameworkSampleApp/Scripts/jquery.validate-vsdoc.js:817-825 | the same for a deferred submit that a stop, matched or not, sends through |
| RemoteRuns.StrayLetsThrough | sample/AspNetFullFrameworkSampleApp/Scripts/jquery.validate-vsdoc.js:817-822 | a run in which one unmatched stop lets a valid form through while its field is being asked about |
| CreditCard.Check | sample/AspNetFullFrameworkSampleApp/Scripts/jquery.validate-vsdoc.js:1161-1184 | the loop decides by the Luhn sum of ISO/IEC 7812-1 Annex B over the digits, of any number; other characters than digits and dashes are refused |
| CreditCard.SumFromTheRight | sample/AspNetFullFrameworkSampleApp/Scripts/jquery.validate-vsdoc.js:1173-1183 | the last digit counts as it is and the one before it as the digits of its double, and so on; a number is accepted when the sum is a multiple of ten |
| CreditCard.DigitsByCharacter | sample/AspNetFullFrameworkSampleApp/Scripts/jquery.validate-vsdoc.js:1171 | the digits are the characters 0 to 9 in their order, each for its value |
| CreditCard.OnlyDigitsAndDashes | sample/AspNetFullFrameworkSampleApp/Scripts/jquery.validate-vsdoc.js:1165-1166 | the characters let through are 0 to 9 and the dash |
| CreditCard.OneDigitDetected | sample/AspNetFullFrameworkSampleApp/Scripts/jquery.validate-vsdoc.js:1173-1183 | changing any one digit of an accepted number makes it rejected |
| CreditCard.SwapDetected | sample/AspNetFullFrameworkSampleApp/Scripts/jquery.validate-vsdoc.js:1173-1183 | swapping adjacent digits goes unnoticed exactly for equal digits and for 0 and 9 |
| CreditCard.OneCheckDigit | sample/AspNetFullFrameworkSampleApp/Scripts/jquery.validate-vsdoc.js:1173-1183 | every prefix has exactly one valid check digit |
| CreditCard.DashesDoNotMatter | sample/AspNetFullFrameworkSampleApp/Scripts/jquery.validate-vsdoc.js:1165-1171 | a dash anywhere changes nothing |
| DisposalRuns.StepKeeps | src/Elastic.Apm/ApmAgentExtensions.cs:54-65 | every step of every thread keeps the invariant: the lock is held by whoever marks or loops, and the loops have disposed what they have passed |
| DisposalTheorems.NoLeafTwice | src/Elastic.Apm/ApmAgentExtensions.cs:54-65 | in any run no leaf is disposed twice, also when the first check reads a stale flag |
| DisposalTheorems.WinnersDisposeAll | src/Elastic.Apm/ApmAgentExtensions.cs:54-65 | once the call that marked a composite and those below it are done, each leaf under it has been disposed exactly once |
| DisposalTheorems.QuietMeansDisposed | src/Elastic.Apm/ApmAgentExtensions.cs:27-36 | when all calls have returned, exactly the leaves under the composites disposed of have been disposed, however composites are shared |
| DisposalTheorems.NoDeadlock | src/Elastic.Apm/ApmAgentExtensions.cs:58-64 | while a call has not returned, some thread can go on |
| DisposalTheorems.StepsBounded | src/Elastic.Apm/ApmAgentExtensions.cs:54-65 | the steps of any run are bounded by its calls, so every call returns |
| LinePrefixer.StringReader.ReadLine | sample/AspNetFullFrameworkSampleApp/App_Start/LoggingConfig.cs:93 | lines end at a carriage return, a line feed or both; an empty rest has none |
| LinePrefixer.FindTerminator | sample/AspNetFullFrameworkSampleApp/App_Start/LoggingConfig.cs:107-113 | the loop finds the line terminator the message ends with |
| LinePrefixer.PrefixEveryLine | sample/AspNetFullFrameworkSampleApp/App_Start/LoggingConfig.cs:83-116 | the prefixed lines joined by the platform's terminator, then the message's own; an empty message gives the prefix |
| LineRoundTrip.PrefixedOneLine | sample/AspNetFullFrameworkSampleApp/App_Start/LoggingConfig.cs:83-116 | a message of one line, empty or not, terminated or not, gets the prefix in front |
| LineRoundTrip.PrefixedMoreLines | sample/AspNetFullFrameworkSampleApp/App_Start/LoggingConfig.cs:95-105 | between two lines the platform's terminator takes the place of the message's, and the rest of the message follows, prefixed |
| LineRoundTrip.PrefixedLines | sample/AspNetFullFrameworkSampleApp/App_Start/LoggingConfig.cs:83-116 | the output's lines are exactly the input's lines with the prefix in front, and the final terminator is preserved |
| LineRoundTrip.StripUndoesPrefix | sample/AspNetFullFrameworkSampleApp/App_Start/LoggingConfig.cs:83-116 | with line feeds only, taking the prefixes off gives the message back |
| Sampler.RateRounded | src/Elastic.Apm/Sampler.cs:65-66 | the rate is a multiple of 0.0001 near the given one, 0 only for 0, and 1 from 0.99995 on |
| Sampler.Make | src/Elastic.Apm/Sampler.cs:32-56 | a sampler is made exactly for a rate between 0 and 1; it is constant exactly for 0 and from 0.99995 on, and otherwise its bounds are plus and minus the whole part of 2^63 * rate |
| Sampler.RateReported | src/Elastic.Apm/Sampler.cs:37-66 | the rate reported is the nearest ten-thousandth, the higher of two, but 0.0001 for a positive rate below that |
| Sampler.DecideIfToSample | src/Elastic.Apm/Sampler.cs:79-83 | fewer than eight bytes fail, also for a constant sampler; a constant sampler decides as it is, another by whether the number lies strictly between its bounds |
| Sampler.SamplesIff | src/Elastic.Apm/Sampler.cs:32-83 | by rate and bytes alone, what is sampled |
| Sampler.ConstantRates | src/Elastic.Apm/Sampler.cs:40-49 | a rate of 0 samples nothing, a rate that rounds to 1 everything |
| Sampler.SpellsInt64 | src/Elastic.Apm/Sampler.cs:81 | eight bytes spell a 64-bit number, and it spells them |
| Sampler.Int64ByBytes | src/Elastic.Apm/Sampler.cs:81 | the number eight bytes spell, byte by byte, the lowest first and the highest bit the sign |
| Sampler.SamplingNested | src/Elastic.Apm/Sampler.cs:32-83 | what a lower rate samples, a higher rate samples too, across all branches |
| Sampler.SampledAccurately | src/Elastic.Apm/Sampler.cs:50-83 | in the interval branch the number of sampled byte strings is within 3 of rate * 2^64, and it is 0 exactly below 2^-63 |

## Left out

- DbTracing.Tracer.StartSpan: does not model spans dropped by the span limit, unsampled transactions or the no-op spans of a disabled agent.
- DbTracing.SqlEventListener.OnEventWritten: payload items of an unexpected type, for which the conversion throws, are not modelled.
- DbTracing.Ef6Interceptor.EndSpan: the user state of a finished context is never cleared by the source, so for EF 6 only the contexts known before are stated to be unchanged.
- DbEvents.NoSpanEndedTwice: the EF 6 interceptor is not among these listeners, since it keeps a span after ending it and may end it again, which the span ignores.
- DbNesting.RunRestores: one execution context; the agent keeps the current span per asynchronous flow.
- DbInFlight.DistinctRestores: sufficient only; ids may also repeat where the listener looks away.
- DbAccounting.AnyRunBalances: the gRPC listener is not modelled; it looks spans up without removing them.
- DbTracing.ElasticsearchListener.OnNext: the four Elasticsearch listeners, each with its own dictionary, are one here; ids of activities are numbers.
- ConcurrentInserts.RunsComplete: one command per saved context; that the table's rows come back in insertion order is taken from the database.
- OffsetParser.ParseOffset: arithmetic is over the reals, so IEEE rounding and overflow are not modelled.
- Flip.Modify: where the popper ends up at each step is a parameter, and modifiers are assumed not to change the placement; a popper comes to the modifier with a side and at most one variation.
- Flip.SearchEnds: custom orders that name a side twice are run by the model, but where their search ends is not characterised.
- HtmlSanitizer.AllowedAttribute: names are lower-cased letter by letter for ASCII only.
- HtmlSanitizer.SanitizeAttributes: attribute names on an element are distinct, as the parser makes them.
- HtmlSanitizer.SanitizeHtml: the HTML parser, the serialisation of the result and the URL and attribute patterns are parameters; the early returns for an empty string and for a caller's own sanitizer are left out.
- ScrollSpy.Spy.Process: the DOM queries that mark links as active are left out; a target is activated by name.
- JsonFlattener.EntryLimitedDictionary.Add: the counter is unbounded, so its overflow after 2^31 additions is not modelled.
- JsonDocuments.FlattenedLeaves: the comparer's case folding is any mapping of characters that leaves digits and brackets alone and nothing else becomes a dot or an opening bracket.
- RemoteValidator.Validator.Check: messages, highlighting and the list of valid fields are left out; a field's other rules either pass or fail.
- RemoteValidator.Validator.OnSubmit: what the submit handler does is left out; only that it is reached, and in which state, is recorded.
- DisposalTheorems.NoLeafTwice: children are assumed not to throw, and adding is finished before disposal starts, as adding takes no lock.
- LinePrefixer.PrefixEveryLine: comparison with the line terminators is ordinal; the platform's terminator is a parameter.
- LineRoundTrip.PrefixedLines: platforms whose line terminator is a lone carriage return are left out, since a following line feed would join it.
- Sampler.SampledAccurately: rates are reals; the rounding of the given number to a double and of Math.Round is not modelled.
- Agent setup, configuration, hosting extensions, middleware, controllers and view models are wiring around libraries and are not modelled.
