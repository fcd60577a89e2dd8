# Hugo's build engine: a verified model

This project models the parts of Hugo's build engine (vendored under `tools/hugo`) whose correctness depends on
more than one function at a time, and proves what they promise. Loops and state that the program updates in place
are methods and classes here, each proved equal to a specification; protocols between goroutines are step
relations, and what is proved about them holds in every interleaving.

| file | what it models |
|---|---|
| `Common.dfy` | optional values, searching in strings |
| `PageTokens.dfy`, `ShortcodeParser.dfy`, `ShortcodeRoundTrip.dfy`, `ShortcodeShape.dfy`, `ShortcodeErrors.dfy` | the shortcode parser: a cursor over tokens, the recursive loop, a printer and the round trip, and what malformed tags lead to |
| `Placeholders.dfy`, `ShortcodeExpansion.dfy`, `ExpansionRefinement.dfy`, `ExpansionTrees.dfy`, `ExpansionMeaning.dfy`, `ExpansionTermination.dfy` | the rewriter that replaces placeholders by rendered content, nested ones included |
| `PageContent.dfy`, `PageMeaning.dfy` | from page tokens to content items, to text with placeholders, to the finished page |
| `Finder.dfy`, `ReportOnce.dfy`, `IdentityManager.dfy`, `IdentityWalk.dfy`, `IdentityStops.dfy` | the dependency finder with its caches, its report-once rule under concurrency, and the walks over identities |
| `DocTree.dfy`, `PageResources.dfy`, `PageListing.dfy`, `Cascade.dfy`, `NodeShifter.dfy` | the content tree: ownership of resources, parents and listings, the cascade, and the four shapes of a node |
| `RenderPool.dfy`, `LazyOnce.dfy`, `LiveReload.dfy` | the render pool, the resettable once with its wait, and the live-reload hub |
| `CompareStrings.dfy`, `ReaderContains.dfy` | the fold-aware string order and the sliding-window search |

## What the proofs found

Where the code does less than its comments say, the model follows the code, and a lemma gives the exact condition or
an input:

- The bound `k+4 < len(source)` in `expandShortcodeTokens` never decides anything, so the slice `source[end:end+4]`
  can reach past the end of the content: into spare capacity, or into a panic (`GuardAlwaysHolds`, `WrapTestPanics`,
  `TokenAtEndPanics`).
- So the rewriter ends with the intended text or panics, depending on the spare capacity (`RewriterOutcome`), and it ends
  for every spare capacity exactly when no token follows `<p>` with fewer than four bytes behind it; when values are
  plain text, only the last token matters (`RewriterMeaning`, `OnlyLastIsCramped`, `MeaningForEveryCapacity`).
- A placeholder prefix that only arises where text meets an inserted value is not seen again
  (`StraddlingPrefixSurvives`); a prefix is left exactly when the intended text contains one (`UnwrappedMeaning`), and
  texts that hold no prefix and end in no part of one, also before a `<`, never leave any (`RankedExpansionStops`).
- A token whose value contains the token itself keeps the rewriter running (`SelfNestingNeverStops`,
  `SelfNestingForEver`).
- The indentation in front of a shortcode is lost when it is the very first token (`IndentationIsRecorded`).
- `WalkIdentitiesDeep` does not end when its callback asks for it below the top level and there are other identities
  to come to: that condition is exact (`StopEndsWalk`).
- The level test of the dependency finder comes before the test for a missing manager: a member without a manager
  counts as found at level 101 (`FindsAtLimit`), which is why the completeness proof needs fewer than 101 managers on
  a path. Where no manager is led to twice, this happens exactly when a path has more than 100 members (`FirstQuery`).
- The cache of the dependency finder does not say how deep an answer was looked for, so a query with a larger depth
  limit gets the answer of an earlier one with a smaller limit: right if and only if both limits find the same
  (`AskAgain`, `CacheForgetsDepth`).
- Arguments without a shortcode name make the parser panic (`ArgumentsWithoutName`).
- `Parent` and the cascade look keys up character by character: without the condition on keys a page can get a parent,
  or inherit from a section, that is no ancestor of it (`StrayParent`, `StrayCascade`).
- `InsertInto` does not report a single leaf as replaced when one of another language pushes it out, and a new key
  takes a leaf under the leaf's own language instead of the language of the tree's shape.
- `Insert` and `InsertInto` report a single leaf of another language as the existing value although it is neither
  replaced nor what the node holds under the language asked for: insert a French page where there is a single English
  one, and the English one comes back (`Shifter.Insert`, `Shifter.InsertInto`).
- Errors of a page's resources or template never reach the result of the pool: it is nil even when every page fails so
  (`ResultShowsRenderErrors`). The error branch behind the page walk is dead code, since the callback returns no
  error; an error there would leave the workers and the collator behind (`WalkErrorStrandsWorkers`).
- A reset that comes between the end of a run and the look of a waiting thread leaves that thread waiting, until its
  wait times out or someone calls `Do` anew (`ResetStrandsWaiter`, `OnlyDoReleases`, `DoReleases`).
- `ReaderContains` can find zero bytes behind a short stream and bytes left over from an earlier read
  (`PaddingIsFound`, `LeftoversAreFound`).

## Assumptions

- A token is its type, its text in the source and its typed value; the lexer is not part of the model.
- Bytes are characters, and integers that count, number or index are unbounded.
- Templates, markup renderers and shortcode renderers are functions or maps given to the model.
- Content trees are finite maps visited in key order; `LongestPrefix` is the longest stored key that is a prefix as a
  string; a walk ignores later keys that begin with a skipped prefix. Keys are clean paths, on which `path.Dir` cuts at
  the last slash.
- A manager hands out its members in an arbitrary but fixed order in `Finder.dfy` and `IdentityWalk.dfy`; in
  `IdentityManager.dfy` the order is left open.
- A buffered channel is a bounded queue, an unbuffered send and receive is one step, and a mutex or an atomic word
  changes in one step.

## Model

| member | source | states |
|---|---|---|
| `PageTokens.Iterator.Next` | tools/hugo/parser/pageparser/pageparser.go:141-147 | the cursor advances by one and yields the item there, or the error item past the end |
| `PageTokens.Iterator.Consume` | tools/hugo/parser/pageparser/pageparser.go:194-202 | the cursor advances over at most the given number of items and stops in front of an error or the end |
| `ShortcodeParser.ShortcodeHandler.ExtractShortcode` | tools/hugo/hugolib/shortcode.go:579-726 | the recursive loop over the cursor, with backup, peek and consume, computes the parsing function `Extract`: same result, same cursor, same names registered, on every token sequence |
| `ShortcodeParser.ShortcodeHandler.ParseItem` | tools/hugo/hugolib/shortcode.go:597-722 | one round of the loop computes `Step`, errors and run-time panics included |
| `ShortcodeRoundTrip.RoundTrip` | tools/hugo/hugolib/shortcode.go:579-726 | for every well-formed shortcode tree and whatever follows it, parsing its printed tokens gives back the tree, with nested shortcodes numbered in order, leaves the cursor on its last token, and registers exactly the names of its nested shortcodes |
| `ShortcodeRoundTrip.ReadTag` | tools/hugo/hugolib/shortcode.go:579-726 | the same for any loop with the equations of the parsing loop, with the opening, the body and the end of the tag read one after the other |
| `ShortcodeShape.ExtractedShape` | tools/hugo/hugolib/shortcode.go:579-726 | on any tokens: the returned shortcode has the ordinal asked for, at every depth the k-th nested shortcode has ordinal k, and the names registered are those of the nested shortcodes |
| `ShortcodeShape.ExtractGoesOn` | tools/hugo/hugolib/shortcode.go:579-726 | on any tokens: a shortcode that is returned has not taken an error of the lexer, or the end of the page, with it |
| `ShortcodeShape.IndentationIsRecorded` | tools/hugo/hugolib/shortcode.go:583-597 | the indentation token in front of a shortcode is recorded if and only if it is not the first token of the page |
| `ShortcodeErrors.UnknownTemplate` | tools/hugo/hugolib/shortcode.go:667-675 | a shortcode name without a template is refused at once, whatever follows |
| `ShortcodeErrors.ClosedWithoutInner` | tools/hugo/hugolib/shortcode.go:644-655 | closing a shortcode whose template does not use its inner content is an error, unless the lexer has an error of its own to report |
| `ShortcodeErrors.MissingName` | tools/hugo/hugolib/shortcode.go:604-609 | a tag without a name is refused, and what has been read of it comes with the error |
| `ShortcodeErrors.ArgumentsWithoutName` | tools/hugo/hugolib/shortcode.go:635-642 | arguments without a name make the parser panic at the end of the tag |
| `ShortcodeErrors.LastArgumentIsDropped` | tools/hugo/hugolib/shortcode.go:682-684 | an argument with which the tokens end, or in front of an error, is dropped, and the shortcode keeps those before it |
| `ShortcodeErrors.NestedFailure` | tools/hugo/hugolib/shortcode.go:614-627 | when a shortcode nested in well-formed content cannot be parsed, the outer one fails with the same error and what has been read of it |
| `ShortcodeErrors.NeverClosed` | tools/hugo/hugolib/shortcode.go:713-721 | well-formed content that the end of the page cuts off before the closing tag is an error, and the shortcode read so far comes with it; where an error of the lexer cuts it off, the shortcode is returned instead |
| `ShortcodeErrors.NamedAfterPositional` | tools/hugo/hugolib/shortcode.go:685-697 | a named argument after positional ones is refused |
| `ShortcodeErrors.PositionalAfterNamed` | tools/hugo/hugolib/shortcode.go:698-711 | a positional argument after named ones is refused |
| `Placeholders.PlaceholdersAreDistinct` | tools/hugo/hugolib/shortcode.go:191-196 | two placeholders are equal if and only if they were made from the same kind, page id and ordinal |
| `Placeholders.PlaceholderIsToken` | tools/hugo/hugolib/shortcode.go:191-196 | a placeholder starts with the prefix and ends at the first end mark in it |
| `ShortcodeExpansion.ExpandShortcodeTokens` | tools/hugo/hugolib/shortcode.go:730-775 | the rewriting loop computes the function `Expand`, error and panic outcomes included |
| `ShortcodeExpansion.GuardAlwaysHolds` | tools/hugo/hugolib/shortcode.go:760-764 | the bound `k+4 < len(source)` in the wrap test is always true |
| `ShortcodeExpansion.WrapTestPanics` | tools/hugo/hugolib/shortcode.go:760-764 | the wrap test goes out of range if and only if a token after `<p>` ends less than four bytes before the end and the capacity ends there too or the spare bytes complete `</p>` |
| `ExpansionRefinement.ExpandRefinesSplice` | tools/hugo/hugolib/shortcode.go:730-775 | rewriting text is splicing pieces, nested tokens, wrapped paragraphs and the panics of the wrap test included, for every spare capacity, as long as splicing meets no stray placeholder prefix |
| `ExpansionTermination.RewriterStopsIffFinite` | tools/hugo/hugolib/shortcode.go:742-772 | where no text contains a placeholder prefix or ends, at its end or before a `<`, in a proper part of one: for each spare capacity, the rewriter ends for some number of rounds if and only if the tokens unfold into a finite tree on which the wrap test does not panic |
| `ExpansionTermination.RankedExpansionStops` | tools/hugo/hugolib/shortcode.go:742-772 | under the same condition on the texts alone, when every value mentions only tokens of smaller rank: from as many rounds on as the unfolded tree has tokens, and for every spare capacity, the rewriter ends with the intended text and no placeholder prefix in it, or panics; and it ends for every spare capacity if and only if no token follows `<p>` with fewer than four bytes behind it |
| `ExpansionTrees.RankedHasTree` | tools/hugo/hugolib/shortcode.go:742-772 | ranked tokens unfold into a finite tree |
| `ExpansionTermination.SelfNestingNeverStops` | tools/hugo/hugolib/shortcode.go:742-772 | a token whose value contains the token itself, between any texts, never lets the rewriter end, wherever it stands: it runs on or panics |
| `ExpansionTermination.SelfNestingForEver` | tools/hugo/hugolib/shortcode.go:742-772 | from such a token alone it runs on for every spare capacity and number of rounds if and only if the value does not put the token after `<p>` with fewer than four bytes behind it |
| `ExpansionMeaning.RewriterOutcome` | tools/hugo/hugolib/shortcode.go:728-775 | for tokens that unfold into a finite tree, with no placeholder prefix in the text between two tokens, and for each spare capacity: the rewriter ends with every token replaced by its fully expanded value in source order, without the paragraphs that wrap exactly one token, unless the wrap test panics for that capacity, and then it panics |
| `ExpansionMeaning.RewriterMeaning` | tools/hugo/hugolib/shortcode.go:728-775 | so the result is the same for every spare capacity if and only if no token follows `<p>` with fewer than four bytes behind it; otherwise it panics without spare capacity |
| `ExpansionMeaning.UnwrappedMeaning` | tools/hugo/hugolib/shortcode.go:728-775 | where no paragraph is taken away and none is cut short, the result is exactly the texts and values in source order, and a placeholder prefix is left if and only if that text contains one |
| `ExpansionMeaning.OnlyLastIsCramped` | tools/hugo/hugolib/shortcode.go:760-766 | when the values are plain text, some token follows `<p>` with fewer than four bytes behind it if and only if the last token does |
| `ExpansionMeaning.MeaningForEveryCapacity` | tools/hugo/hugolib/shortcode.go:728-775 | when the values are plain text, the result is the intended text for every spare capacity if and only if the last token does not follow `<p>` with fewer than four bytes behind it |
| `ExpansionMeaning.WrappedTokenLosesParagraph` | tools/hugo/hugolib/shortcode.go:760-766 | a paragraph that wraps exactly one token disappears and the text around it stays |
| `ExpansionMeaning.EndMarkMissing` | tools/hugo/hugolib/shortcode.go:742-758 | a token without an end mark is an error |
| `ExpansionMeaning.StraddlingPrefixSurvives` | tools/hugo/hugolib/shortcode.go:740-772 | an input on which a prefix is left: put together from text and a value, it is not seen since the rescan starts behind its first half |
| `ExpansionMeaning.TokenAtEndPanics` | tools/hugo/hugolib/shortcode.go:760-764 | a token after `<p>` at the very end panics on a slice without spare capacity |
| `PageContent.ContentParseInfo.MapItemsAfterFrontMatter` | tools/hugo/hugolib/page__content.go:350-444 | the mapping loop computes `MapItems`: content items, names, top-level shortcodes and the flags for late expansion and for a manual summary, or the same error |
| `PageContent.ContentParseInfo.AddShortcode` | tools/hugo/hugolib/page__content.go:218-223 | the shortcode is appended and the flag records whether a placeholder is needed |
| `PageContent.ContentToRender` | tools/hugo/hugolib/page__content.go:226-263 | the loop computes the lowering `Lower`, failing and panicking in the same cases |
| `PageContent.LowerStops` | tools/hugo/hugolib/page__content.go:226-263 | the lowering panics at the first shortcode to go into the text that has no rendering, fails at the first whose rendering failed, whichever comes first, and otherwise has variants if and only if one of those renderings has |
| `PageMeaning.PageRoundTrip` | tools/hugo/hugolib/page__content.go:350-444 | mapping the printed tokens of a well-formed page gives the pieces of the page back, with its shortcodes numbered in source order, and registers exactly the names of its shortcodes and of those nested in them |
| `PageMeaning.PageThenRest` | tools/hugo/hugolib/page__content.go:382-441 | the printed tokens of a well-formed page are mapped to its pieces whatever tokens come behind them, and the mapping goes on there |
| `PageMeaning.RejectedAtError` | tools/hugo/hugolib/page__content.go:436-437 | an error of the lexer behind a well-formed page rejects it, whatever comes after |
| `PageMeaning.RejectedAtShortcode` | tools/hugo/hugolib/page__content.go:406-409 | a shortcode behind a well-formed page that cannot be parsed rejects it with the error, or the panic, of that shortcode |
| `PageMeaning.ErrorsAreNotLost` | tools/hugo/hugolib/page__content.go:382-441 | on any tokens: a page is mapped only when the first of its tokens that is an error or the end is the end, and rejected for a token only when it is an error, shortcodes cut off by it included |
| `PageMeaning.PercentTagsGoInline` | tools/hugo/hugolib/page__content.go:238-260 | exactly the shortcodes written with percent signs, unless their template asks for version 1, go into the text as rendered; all others are represented by their placeholder |
| `PageMeaning.DividerIsKept` | tools/hugo/hugolib/page__content.go:397-401 | the content of a page holds the mark of a manual summary if and only if its author has written the divider |
| `PageMeaning.TopLevelNumbering` | tools/hugo/hugolib/page__content.go:404-432 | on any tokens, the k-th top-level shortcode has ordinal k and the placeholder made from k |
| `PageMeaning.PlaceholdersOfPage` | tools/hugo/hugolib/page__content.go:404-432 | no two shortcodes of a page share a placeholder, and none of them is the placeholder of the table of contents |
| `PageMeaning.RenderingRefinesSplicing` | tools/hugo/hugolib/page__content.go:226-263 | for any page whose shortcodes are rendered and each spare capacity, lowering and then expanding ends as splicing the renderings does, as long as splicing meets no stray placeholder prefix |
| `PageMeaning.RenderingOutcome` | tools/hugo/hugolib/page__content.go:578-600 | where no text between two placeholders contains a placeholder prefix, and for each spare capacity, the page becomes its texts and renderings in source order, without the paragraphs that wrap exactly one placeholder, unless the wrap test panics for that capacity |
| `PageMeaning.RenderingIsSplicing` | tools/hugo/hugolib/page__content.go:578-600 | so it becomes that for every spare capacity if and only if its last placeholder does not follow `<p>` with fewer than four bytes behind it |
| `PageMeaning.RenderingInSourceOrder` | tools/hugo/hugolib/page__content.go:578-600 | and where no paragraph is taken away, it is exactly the texts and renderings in source order |
| `PageMeaning.SourcePageRenders` | tools/hugo/hugolib/page__content.go:350-444 | end to end: the tokens of a well-formed page map to its content, which becomes the finished page with every rendering in place under the same condition, if and only if; in source order where no paragraph is taken away |
| `PageMeaning.CleanPageRenders` | tools/hugo/hugolib/page__content.go:350-444 | the same from a condition on the texts and renderings alone, each without a placeholder prefix and without a part of one at its end or before a `<`; and no placeholder prefix is left in the finished page |
| `PageMeaning.NestedRenderingOutcome` | tools/hugo/hugolib/page__content.go:578-600 | the same for renderings that hold placeholders themselves, of shortcodes or of the table of contents, as long as these unfold into a finite tree |
| `DependencyFinder.Finder.Contains` | tools/hugo/identity/finder.go:77-140 | an invariant of the answer cache and the report-once set over all earlier queries: unless a search passed level 100, an answer above "repetition" means that a match is reachable; on acyclic graphs of at most 100 levels, without find-first providers and depth limit, the answer is "found" exactly when a match is reachable, and "not found" otherwise; with a limit between 0 and 100 no search passes level 100; where no manager is led to twice and none holds a find-first provider, a query for a new identity answers "found" if and only if the container matches or a match can be reached through as many managers as the depth limit allows, or, without a limit, at all or by passing level 100; and whatever the caches hold, a container that matches is found, one that stands for a match is claimed or a repetition, and the answer for its manager is the cached one |
| `DependencyFinder.ShortcutCases` | tools/hugo/identity/finder.go:78-100 | anonymous identities contain nothing and are contained in nothing, the wildcard is in everything but itself, an identity contains itself, and nil contains nothing else |
| `DependencyFinder.Finder.CheckManager` | tools/hugo/identity/finder.go:156-188 | the depth test, the seen set of the query and the cache keep the answer right; the depth test comes before the test for a missing manager; a cached answer is given again, and a new one is cached unless it is one of many |
| `DependencyFinder.Finder.CheckOne` | tools/hugo/identity/finder.go:190-219 | a find-first provider stands for what it provides: one seen before is a repetition; one not seen whose identity matches, or whose manager finds something, is found as one of many and claimed from then on; any other identity is found if and only if it matches |
| `DependencyFinder.Finder.CheckMember` | tools/hugo/identity/finder.go:272-304 | one member is right about the match and what it leads to; where no manager is led to twice, it finds what the search without caches finds, level 101 included |
| `DependencyFinder.FirstQuery` | tools/hugo/identity/finder.go:118-154 | on empty caches, where no manager is led to twice: with a depth limit of at most 100 exactly the matches that can be reached through that many managers and one are found; without one, any that can be reached, and what is not there if and only if there is a path of more than 100 members, each in the manager of the one before |
| `DependencyFinder.AskAgain` | tools/hugo/identity/finder.go:168-186 | a second query with another depth limit gets the answer of the first, so it is right if and only if both limits find the same |
| `DependencyFinder.CacheForgetsDepth` | tools/hugo/identity/finder.go:168-186 | a match that a query of depth 2 finds is not found by it after a query of depth 0 |
| `DependencyFinder.FindsAtLimit` | tools/hugo/identity/finder.go:142-175 | an acyclic graph of 101 managers on a path in which nothing matches, and the inexact search answers found |
| `DependencyFinder.Finder.Search` | tools/hugo/identity/finder.go:272-304 | the answer over all members of a manager and the managers they lead to is right about reachability |
| `DependencyFinder.Finder.DoCheckOne` | tools/hugo/identity/finder.go:222-269 | one identity is found if and only if it matches |
| `Identities.WaysToMatch` | tools/hugo/identity/finder.go:222-269 | each way to match on its own, and that an exact search knows only the first two |
| `Identities.ReachesStep` | tools/hugo/identity/finder.go:272-304 | a match is reachable from a manager if and only if one of its members matches or leads to a manager from which one is |
| `Identities.ReachesLonger` | tools/hugo/identity/finder.go:272-304 | what is reachable within some number of managers is so within any larger number |
| `ReportOnce.ReportedAtMostOnce` | tools/hugo/identity/finder.go:190-216 | over any number of concurrent calls and any interleaving, a find-first identity is reported as found by at most one call |
| `ReportOnce.FindsAreReported` | tools/hugo/identity/finder.go:190-216 | when all calls have returned, an identity was reported if and only if the search of some call for it found something, and every call turned away answers with a repetition and has such a find beside it |
| `ReportOnce.SomeCallGoesOn` | tools/hugo/identity/finder.go:190-216 | while a call has not returned, some call can go on |
| `ReportOnce.CallsEnd` | tools/hugo/identity/finder.go:190-216 | every call returns after at most five steps of its own, in any interleaving |
| `IdentityManager.Manager.AddIdentity` | tools/hugo/identity/identity.go:309-325 | the identities are added except nil and anonymous ones, and the hook is called exactly once for each that is new |
| `IdentityManager.Manager.ForEachIdentity` | tools/hugo/identity/identity.go:367-381 | the identities are offered, each once and in some order, and then those of the providers in turn, up to and including the first on which the callback says stop; the answer tells whether there was one |
| `IdentityManager.UntilStopIsPrefix` | tools/hugo/identity/identity.go:367-381 | what is offered is a beginning of all, up to and with the first identity on which the callback says stop |
| `IdentityManager.ConcatSplits` | tools/hugo/identity/identity.go:375-379 | each provider hands out all of its identities, one provider after the other |
| `IdentityWalk.WalkIdentitiesDeep` | tools/hugo/identity/identity.go:114-117 | the walk computes `WalkDeep`: the same calls in the same order, on cyclic graphs too |
| `IdentityWalk.Walker.CbRecursive` | tools/hugo/identity/identity.go:411-434 | the recursive callback computes `Visit` on the seen set and the calls |
| `IdentityWalk.Walker.WalkShallow` | tools/hugo/identity/identity.go:438-468 | the faces of a value are offered one after the other until a visit asks to stop |
| `IdentityWalk.CallsAreReached` | tools/hugo/identity/identity.go:407-436 | whatever the callback answers, no identity is reported twice, and each is reachable at the level reported |
| `IdentityWalk.EveryReachedIsCalled` | tools/hugo/identity/identity.go:407-436 | with a callback that never stops, an identity is reported if and only if it is neither nil nor anonymous and can be reached, where a manager leads on to the identities that it holds, to those they provide, and to their groups |
| `IdentityWalk.OffersExactly` | tools/hugo/identity/identity.go:424-466 | what the walk is offered behind an identity is exactly what its manager leads on to |
| `IdentityWalk.FacesInOrder` | tools/hugo/identity/identity.go:438-468 | a value is offered first as itself, then what it provides, then its group, each only while the callback has not stopped |
| `IdentityStops.StopEndsWalk` | tools/hugo/identity/identity.go:407-436 | returning true from the callback ends the walk in every world if and only if there is no path of real identities on which it does not stop, leading to one below the top level on which it does, with another identity besides |
| `IdentityStops.StopIsLost` | tools/hugo/identity/identity.go:424-431 | for every callback with such a path a world in which the walk goes on after the stop |
| `IdentityStops.TopLevelStopEndsWalk` | tools/hugo/identity/identity.go:407-436 | so a callback that stops only at the top level ends the walk |
| `IdentityStops.LevelStopIsLost` | tools/hugo/identity/identity.go:424-431 | and one that stops at exactly one level below does not, whatever the level |
| `DocTree.LongestKeyIsLongest` | tools/hugo/hugolib/doctree/nodeshifttree.go:245-249 | the lookup finds the longest stored key that is a prefix as a string, or none if there is none |
| `DocTree.Walker.ShouldSkip` | tools/hugo/hugolib/doctree/nodeshifttree.go:343-350 | a key is skipped if and only if one of the prefixes to skip is a prefix of it |
| `PageResources.ForEachResourceInPage` | tools/hugo/hugolib/content_map_page.go:486-539 | for a branch page the pruned walk handles exactly the resources whose nearest page among their directories is that page, in order, up to one on which the handler ends the walk; every prefix it skips belongs to other pages |
| `PageResources.FindOwner` | tools/hugo/hugolib/content_map_page.go:509-533 | the upward loop ends and finds the owner although the lookup compares character by character |
| `DocTree.NearestIsNearest` | tools/hugo/hugolib/content_map_page.go:508-511 | any key above a path is at or above the nearest one |
| `DocTree.AncestorsComeFirst` | tools/hugo/hugolib/doctree/nodeshifttree.go:352-395 | in the order of a walk a path comes after its ancestors |
| `PageResources.HandledExactly` | tools/hugo/hugolib/content_map_page.go:486-539 | unless the handler ends the walk, it is called for a resource if and only if the page wants it |
| `PageResources.HandledInOrder` | tools/hugo/hugolib/content_map_page.go:500-535 | the handler is called for the wanted resources, each once and in order, up to and with the first on which it ends the walk |
| `DocTree.FilterPicks` | tools/hugo/hugolib/doctree/nodeshifttree.go:352-395 | a filtered walk takes every wanted key once and keeps the order |
| `PageResources.ClimbLoops` | tools/hugo/hugolib/content_map_page.go:512-533 | for any page key: the upward loop never ends if and only if there is a home page, which is not the page in question, and no directory on the way is a page or finds the page in question |
| `PageResources.ClimbFindsOwner` | tools/hugo/hugolib/content_map_page.go:512-533 | for a page of the tree, which is what the callers pass, it ends with the owner of the resource |
| `PageListing.LongestPrefix` | tools/hugo/hugolib/doctree/nodeshifttree.go:222-243 | the loop computes `LongestHere`, about which the next row speaks |
| `PageListing.LongestHereIsLongest` | tools/hugo/hugolib/doctree/nodeshifttree.go:222-243 | what the climbing lookup finds holds a page in the current language under a prefix of the path, and no such page at the path or above it has a longer key; nothing is found only if there is none at all |
| `PageListing.Parent` | tools/hugo/hugolib/page__tree.go:116-137 | the loop of lookups computes the parent: of a bundled page the first page found, of any other one the first that is a branch page |
| `PageListing.BundledParentIsBundle` | tools/hugo/hugolib/page__tree.go:129-134 | the parent of a page in a bundle is the page of the bundle |
| `PageListing.BundledParentElseHome` | tools/hugo/hugolib/page__tree.go:127-134 | a page in a bundle always has a parent, which is a page here or the home page, and the home page when no page is found |
| `PageListing.ParentIsShorter` | tools/hugo/hugolib/page__tree.go:116-137 | a parent has a strictly shorter key |
| `PageListing.ParentIsNearestBranch` | tools/hugo/hugolib/page__tree.go:116-137 | the parent is the nearest branch page above if and only if no directory in between finds a branch page that is a prefix of it as a string only |
| `PageListing.StrayParent` | tools/hugo/hugolib/page__tree.go:116-137 | a concrete tree in which a page gets a section as parent that is no ancestor |
| `PageListing.NoOverlapNoStray` | tools/hugo/hugolib/page__tree.go:116-137 | when keys are prefixes of each other only as ancestors, no lookup is led astray |
| `PageListing.Ancestors` | tools/hugo/hugolib/page__tree.go:139-147 | the loop ends and yields the chain of parents |
| `PageListing.AncestorsAreBranchesAbove` | tools/hugo/hugolib/page__tree.go:139-147 | without overlapping keys, the ancestors of a page are exactly the branch pages above it and the home page |
| `PageListing.Sections` | tools/hugo/hugolib/page__tree.go:149-183 | the pruned walk finds exactly the listable sections below the page whose parent it is, whatever the keys are |
| `PageListing.ParentBelowBranch` | tools/hugo/hugolib/page__tree.go:160-175 | below another branch page no page has the walked page as its parent, stray or not |
| `PageListing.GetPagesInSection` | tools/hugo/hugolib/content_map_page.go:353-416 | the pruned walk lists exactly the admitted pages below the section with no branch page in between, or all of them when recursive |
| `PageListing.ListingIsNearest` | tools/hugo/hugolib/content_map_page.go:353-416 | a section lists exactly the admitted pages whose nearest branch page it is, whatever the keys are |
| `PageListing.ListingAgreesUnlessAstray` | tools/hugo/hugolib/content_map_page.go:353-416 | a page is listed by exactly the sections that are its parent if and only if no directory on its way up is led astray |
| `PageListing.ListingAgreesWithParent` | tools/hugo/hugolib/content_map_page.go:353-416 | without overlapping keys, a section lists exactly the admitted pages whose parent it is |
| `Cascade.ApplyAggregates` | tools/hugo/hugolib/content_map_page.go:1376-1502 | after the walk of a first build every page that is not a term has the cascade compiled from its own and the one handed down by the longest prefix, applied to its params, every page in a leaf bundle has its own with what the page of the bundle gets from above, and the pages of terms are as they were |
| `Cascade.FindForResource` | tools/hugo/hugolib/content_map_page.go:1470-1494 | for a page in a bundle, whose key is not in the page tree, the lookup finds what reaches the page of the bundle |
| `Cascade.PageState.SetMetaPost` | tools/hugo/hugolib/page__meta.go:309-366 | the page keeps the merge of its own and the inherited cascade, and its params are front matter plus values of matching entries |
| `Cascade.MergeInto` | tools/hugo/hugolib/page__meta.go:319-339 | the nested loops compute the merge in which the own value wins for every matcher and key, in any iteration order |
| `Cascade.CompiledLookup` | tools/hugo/hugolib/page__meta.go:319-343 | a lookup in the merge is the own value if there is one, else the inherited one |
| `Cascade.InheritsFromNearest` | tools/hugo/hugolib/content_map_page.go:1398-1403 | without a stray the cascade found for a page is that of its nearest branch page |
| `Cascade.InheritsFromStray` | tools/hugo/hugolib/content_map_page.go:1398-1403 | with a stray it is that of a page that is no ancestor |
| `Cascade.CascadeAsPromised` | tools/hugo/hugolib/content_map_page.go:1376-1438 | without strays every page gets, for every matcher and key, the value of its nearest ancestor-or-self that defines it, else that of the site |
| `Cascade.BundledAsPromised` | tools/hugo/hugolib/content_map_page.go:1470-1494 | and so does every page in a bundle, from its own value or the nearest branch page above the bundle on |
| `Cascade.NoOverlapNoStrays` | tools/hugo/hugolib/content_map_page.go:1398-1403 | keys that overlap only as ancestors have no strays |
| `Cascade.ParamsAsPromised` | tools/hugo/hugolib/page__meta.go:355-366 | front matter wins; else a key has the promised value of the one matching entry that defines it |
| `Cascade.StrayCascade` | tools/hugo/hugolib/content_map_page.go:1398-1403 | a concrete tree in which a page inherits from a section that is no ancestor |
| `NodeShifter.Shifter.Insert` | tools/hugo/hugolib/content_map_page.go:855-912 | in all four shapes the node then stands for the map with the leaf under its own language; the value reported is that of the map unless the node is a single leaf of another language, which is reported although it stays; the replaced flag is that of the map; exactly the leaf displaced, if another, is marked stale |
| `NodeShifter.Shifter.InsertInto` | tools/hugo/hugolib/content_map_page.go:814-853 | the same under the language asked for, the value reported included; the replaced flag is that of the map if and only if not a single leaf of that language is pushed out by one of another language; nothing is marked stale |
| `NodeShifter.Shifter.Delete` | tools/hugo/hugolib/content_map_page.go:701-745 | the language is taken out of the map, the leaf taken out is reported and marked stale, and the node is reported empty if and only if the map is |
| `NodeShifter.Shifter.Shift` | tools/hugo/hugolib/content_map_page.go:747-793 | an exact match is lookup in the map; otherwise a resource of the first language that has one may do, if it is no page |
| `NodeShifter.Tree.InsertIntoValuesDimension` | tools/hugo/hugolib/doctree/nodeshifttree.go:164-178 | over any run of operations the tree stands for one map from keys to maps from languages; only the key inserted at changes; the existing value reported is that of the map unless a single leaf of another language is there |
| `NodeShifter.Tree.InsertIntoCurrentDimension` | tools/hugo/hugolib/doctree/nodeshifttree.go:151-162 | the same in the current language, except that a new key takes the leaf under its own language; the updated flag is exact |
| `NodeShifter.Tree.Delete` | tools/hugo/hugolib/doctree/nodeshifttree.go:119-130 | the language is taken out of the key, and the key out of the tree with its last language |
| `RenderPool.NothingLostOrDoubled` | tools/hugo/hugolib/site_render.go:67-188 | in every interleaving nothing is sent on a closed channel or closed twice, the queue is bounded, every page is taken once and in order, and every error of a page taken is collected once or still held by a worker |
| `RenderPool.ReturnsAfterAllWork` | tools/hugo/hugolib/site_render.go:106-122 | the pool returns only when all workers have finished; the errors collected are those of the pages sent, each as often as a page or its paginator failed with it; the result is the first collected error with a file context, else the first, and without cancellation it is nil if and only if no page had one |
| `RenderPool.SilentPages` | tools/hugo/hugolib/site_render.go:134-171 | standalone pages that another site renders, pages without output and pages that fail before they are rendered send no error |
| `RenderPool.ResultShowsRenderErrors` | tools/hugo/hugolib/site_render.go:106-188 | without cancellation the result is nil if and only if no page failed in its rendering proper: it is nil even when the resources or the template of every page failed |
| `RenderPool.Progress` | tools/hugo/hugolib/site_render.go:67-188 | with at least one worker some step of the pool can be taken until it has returned |
| `RenderPool.EveryRunEnds` | tools/hugo/hugolib/site_render.go:67-188 | every run is bounded by a measure, and a run cannot go on if and only if the pool has returned and the collator has finished |
| `RenderPool.WalkErrorStrandsWorkers` | tools/hugo/hugolib/site_render.go:102-104 | a remark about a callback that would return errors, as that of this walk never does: no worker and not the collator would ever finish |
| `RenderPool.PickOneIsFirst` | tools/hugo/hugolib/hugo_sites.go:257-289 | the error picked is the first with a file context, else the first of all |
| `RenderPool.PickOneAndLogTheRest` | tools/hugo/hugolib/hugo_sites.go:257-289 | the loop picks that error, or none |
| `LazyOnce.RunsAlone` | tools/hugo/lazy/once.go:33-68 | over any number of threads, while the function runs no other thread runs it and none is inside a reset; the once is in progress and not done |
| `LazyOnce.DoneMeansCompleted` | tools/hugo/lazy/once.go:33-68 | done is set only when a run has completed and no reset has come since |
| `LazyOnce.RunsAreBounded` | tools/hugo/lazy/once.go:33-68 | completed runs number at most resets plus one |
| `LazyOnce.StartsAreSeparated` | tools/hugo/lazy/once.go:33-68 | between two starts of the function there is a reset |
| `LazyOnce.InnerDoReturns` | tools/hugo/lazy/once.go:38-42 | a call of Do by the running function itself comes back without waiting for the mutex |
| `LazyOnce.WaitEndsAfterRun` | tools/hugo/lazy/init.go:119-136 | a thread gets past the wait behind Do only when a run has completed and no reset has come since |
| `LazyOnce.DoReturnsAfterRun` | tools/hugo/lazy/once.go:33-53 | from anywhere in a call of Do or its wait, a thread comes back only when a run has completed, its own or another one, and no reset has come since |
| `LazyOnce.WaitersAreStrandedByReset` | tools/hugo/lazy/init.go:127-154 | while a thread waits behind Do, none of the calls in progress can go on if and only if all threads are idle or waiting and the last event was a reset |
| `LazyOnce.OnlyDoReleases` | tools/hugo/lazy/init.go:127-154 | from such a state, whatever is done short of a new call of Do, the thread goes on waiting |
| `LazyOnce.DoReleases` | tools/hugo/lazy/once.go:33-53 | and a new call of Do by any free thread runs the function again and lets it go |
| `LazyOnce.ResetStrandsWaiter` | tools/hugo/lazy/init.go:127-154 | a concrete run that ends so |
| `LazyOnce.NoLivelock` | tools/hugo/lazy/once.go:33-68 | a thread takes at most nine steps for every call made |
| `LiveReload.HubIsSafe` | tools/hugo/livereload/hub.go:37-56 | in every interleaving the hub never sends on a closed channel and closes none twice; a connection is registered exactly while its handler is there and its channel open |
| `LiveReload.ClientsGetGapFreeRuns` | tools/hugo/livereload/hub.go:37-56 | what is enqueued for a client is a gap-free run of broadcasts from its registration on, what is written is a prefix of it, and between broadcasts a registered client has been sent all |
| `LiveReload.ClosedGetsNoMore` | tools/hugo/livereload/hub.go:45-52 | a client whose channel was closed is enqueued nothing later |
| `LiveReload.ClosedOnlyWhenLeavingOrFull` | tools/hugo/livereload/hub.go:42-52 | a channel is closed if and only if its handler leaves or a broadcast finds it holding 256 messages |
| `LiveReload.DeliveryReaches` | tools/hugo/livereload/livereload.go:100 | a broadcast reaches a client whose channel holds fewer than 256 messages and keeps it registered; with 256 the client is given up |
| `LiveReload.HubNeverBlocks` | tools/hugo/livereload/hub.go:45-52 | during a broadcast the next step of the hub is always possible, and each delivery leaves fewer |
| `CompareStrings.CompareFold` | tools/hugo/compare/compare_strings.go:36-108 | on ASCII strings the fold comparison equals lexicographic comparison of the lower-cased strings, for all its swapping of runes and signs |
| `CompareStrings.LexIsLexicographic` | tools/hugo/compare/compare_strings.go:22-32 | comparison by recursion is comparison at the first difference |
| `CompareStrings.OrderIsAntisymmetric` | tools/hugo/compare/compare_strings.go:22-32 | zero is answered for equal strings only, and swapping the arguments swaps the sign |
| `CompareStrings.OrderIsTransitive` | tools/hugo/compare/compare_strings.go:22-32 | the order is transitive |
| `CompareStrings.CaseVariantsAreAdjacent` | tools/hugo/compare/compare_strings.go:22-32 | what sorts between two case variants of a string is a case variant of it |
| `CompareStrings.LessStrings` | tools/hugo/compare/compare_strings.go:110-113 | less is: lexicographically before when lower-cased, or equal then and lexicographically before as it is |
| `CompareStrings.LowerOnLetters` | tools/hugo/compare/compare_strings.go:52-70 | lower-casing takes the letters to their small counterparts and leaves everything else |
| `ReaderContains.Contains` | tools/hugo/helpers/general.go:148-180 | the search ends, never misses the pattern, and answers true if and only if the pattern is in the stream, in the zero-padded first window or in the left-over bytes of a short last window |
| `ReaderContains.Overlap` | tools/hugo/helpers/general.go:161-170 | windows that overlap by the length of the pattern miss nothing |
| `ReaderContains.EvenReadsAreExact` | tools/hugo/helpers/general.go:148-180 | the answer is exact when the stream is a whole number of half buffers and the pattern has no zero byte |
| `ReaderContains.PaddingIsFound` | tools/hugo/helpers/general.go:156-164 | a zero byte is found behind a short stream |
| `ReaderContains.LeftoversAreFound` | tools/hugo/helpers/general.go:165-174 | a pattern is found in the bytes left over behind a short last read |

## Left out

- ShortcodeParser.ShortcodeHandler.ExtractShortcode: does not model the positions and lengths of shortcodes, the wording of errors and what a failing parse leaves of the cursor; an inline shortcode's inner template stays tokens.
- ShortcodeExpansion.ExpandShortcodeTokens: does not model that the caller's slice is rewritten in place; the spare capacity met in each round is an arbitrary parameter, and the number of rounds is bounded by a parameter because a self-nesting token never stops.
- PageContent.TokenHandler: the panic on an unknown token is a failing handler, like a rendering error.
- PageMeaning.RenderingIsSplicing: does not model the markup renderer between lowering and expansion; it is about content that is copied, and the renderings are plain text. Renderings that hold placeholders are covered by PageMeaning.NestedRenderingOutcome.
- DependencyFinder.Finder.Contains: does not claim completeness on cyclic graphs, for managers that hold find-first providers, or, with a depth limit, where managers are led to twice or answers for the identity are cached, because negative answers of a search that was cut off make it false; the guards at the head of search are not repeated since Contains has already dealt with them.
- IdentityWalk.WalkIdentitiesDeep: the panic at level 20 of walkIdentities is not modelled, since only level 0 is passed in.
- ExpansionMeaning.RewriterOutcome: does not say what becomes of text of the author's own that contains a placeholder prefix, which the rewriter takes for a token.
- ExpansionTermination.RankedExpansionStops: its condition on the texts is enough to leave no prefix, but not needed; ExpansionMeaning.RewriterOutcome gives the text itself, and with it exactly when a prefix is left.
- DependencyFinder.FirstQuery: where managers are led to several times, which searches pass level 100 depends on the order in which they are met and on the cache; only soundness below the limit and completeness up to it are stated there.
- PageListing.GetPagesInSection: the sort at the end and the cache in front of the walk are not modelled.
- Cascade.ApplyAggregates: takes the leaf bundles' pages as given with their bundle, since content files of a branch bundle are pages of the tree; does not model rebuilds (hashes, clones and change flags), dates and the counting of pages in sections, nor that inner maps of a cascade are shared between pages, which a first build never writes through.
- Cascade.ParamsAsPromised: when several matching entries define a key, map iteration decides between their values; the claim is about keys that only one of them defines.
- NodeShifter.Shifter.Insert: for resources with an empty slot the source reports an interface that is not nil and holds a nil pointer, and so do InsertInto and Delete; the model reports null, since callers look at the flag only.
- NodeShifter.Shifter.Shift: languages are the only dimension; the panic on an empty slice of pages cannot arise from the insertions.
- RenderPool.ReturnsAfterAllWork: does not model what rendering a page does beyond its outcome; errors reported by SendError go elsewhere.
- LazyOnce.WaitEndsAfterRun: does not model the recursion of Init over its previous and child initializers, the values and errors it stores, its timeouts, the panic after a very long wait, and functions that panic.
- LiveReload.HubIsSafe: is about sends made by the hub; the reader's own answer to a hello is modelled only while the channel is open.
- CompareStrings.CompareFold: ASCII only; beyond it unequal runes compare by code point and the order is not transitive.
- Template execution, Goldmark and other renderers, publishing, logging, file watching, HTTP and configuration.
- The trimming and grouping of file events in hugolib/site.go, and the pruning of rebuilds.
- Helpers of page__tree.go that only combine what is modelled: CurrentSection, FirstSection, InSection, IsAncestor and IsDescendant.
