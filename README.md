# Retreaver call-tracking script, modelled in Dafny

The Retreaver embeddable script swaps a campaign's tracking phone numbers
into a web page. Its central part is a vendored port of
findAndReplaceDOMText 0.4.3, `src/vendor/FindAndReplaceDOMText.ts`. That
engine works in four steps:

1. It aggregates a node tree into nested runs of text.
2. It searches every run for a literal string.
3. It walks the document's text nodes with a character cursor and splices
   every match into the nodes.
4. It can revert the splices afterwards.

Around it sit the smaller parts of the library:

- the cookie jar;
- the global two-level record table (`Data`) and the model registry with
  its response updates (`Model`);
- number tags, activation and ping grouping (`Number`);
- campaign tag validation, `requestNumber` dispatch, the number filter and
  the `tel:` link rewrite (`Campaign`);
- query-string parsing, the request URL and the at-most-once request guard
  (`RequestNumber`);
- the required-key check and the deep merge (`Helpers`);
- the post serialiser, the callback normalisation and the shared
  connection (`Request`).

## Modules

The project has one module per source component:

| File | Module |
|---|---|
| `js.dfy` | `Js` |
| `find_replace_text.dfy` | `FindReplaceText` |
| `find_replace_dom.dfy` | `FindReplaceDom` |
| `cookies.dfy` | `Cookies` |
| `data.dfy` | `Data` |
| `helpers.dfy` | `Helpers` |
| `model.dfy` | `Models` |
| `numbers.dfy` | `Numbers` |
| `campaign.dfy` | `Campaigns` |
| `request_number.dfy` | `RequestNumbers` |
| `request.dfy` | `Requests` |

`Js` is shared by the others. It holds the JavaScript values the library
handles:

- `undefined`, `null`, booleans, numbers, strings, arrays and functions;
- objects, as association lists that keep insertion order.

It also holds the parts of the JavaScript built-ins the code relies on:
`String.prototype.split`, `indexOf`, `substr`/`substring` clamping, ASCII
`toLowerCase`, and `+` string conversion.

Objects the source updates in place are classes with `modifies` clauses:

- `Cookies.CookieJar`;
- `Data.Store` and `Data.Data`;
- `Models.Registry` and `Models.Model`;
- `FindReplaceDom.Document` and `FindReplaceDom.Finder`;
- `Requests.Connections`;
- `RequestNumbers.PendingRequest`.

Most loops of the source are methods with a loop. Each such method is
proved equal to a specification function, and the properties are proved
as lemmas about that function. There are four exceptions:

- The preset copy in `configure` (`src/vendor/FindAndReplaceDOMText.ts:100-104`)
  is the function `FindReplaceText.Configure`. The preset has two fixed
  fields, so the loop is written out as one test per field.
- The payload loop of the ping (`src/Number.ts:200-209`) is the recursive
  function `Numbers.PingPayloads`. It builds no state besides the payload
  list, and `Numbers.PingPayloadsAt` states that list entry by entry.
- `Helpers.AssertRequiredKeys` is proved against its contract directly.
  Its `ensures` states when it returns, and which message it throws
  otherwise.
- `Campaigns.ListNumbers`, the `for…in` of `numbers()`, is proved against
  the predicates `Progress` and `Stopped`. They relate the loop's state to
  `MatchingNumbers` and to the trace of the store, the registry and the
  cookies.

## How the engine is modelled

**The tree.** Aggregation and search work on a datatype tree of text
nodes and elements.

**Options.** The filter and the force-context option are functions of an
element's tag name. `Configure` fills the options the caller did not set
from the `prose` preset.

**The live document** is modelled as the document-order strip of the text
nodes the walk visits. Each piece carries a node id. A single-node splice
replaces one piece with up to three: the text before the match, the
replacement and the text after it. Each single-node splice records an undo
step that `Revert` applies in reverse order.

**The find pattern** is a literal string: the escaped, global regular
expression that `findAndReplaceNumber` compiles. Matches are therefore
the leftmost non-overlapping occurrences in each leaf.

**Two behaviours of the code worth knowing:**

- **Search offsets.** The `offset` counter of the search is shared by
  every nested scope and never reset. So `startIndex`/`endIndex` are
  offsets into the whole flattened text.
- **Multi-node matches.** For a match that spans several text nodes, the
  code replaces only the end node with the replacement of the end
  portion. It leaves the start and inner nodes untouched and records no
  undo step. The model does the same.
  - `FindReplaceDom.MultiNodeSplice` states it.
  - `FindReplaceDom.TwoNodeWalk` and `FindReplaceDom.TwoNodeWalkModes`
    work it out on a two-node example. Matching `"bc"` in `"ab" | "cd"`
    leaves the visible text `"ab"` followed by the end portion's
    replacement: `"c"` in retain mode, `""` in first mode. The start
    node's `"b"` is still shown, and the end node's `"d"` is lost.

**Two versions of the number and campaign code.** `src/` and `src-ts/`
carry two versions of `Number` and `Campaign`. They agree on every
modelled member except `removeTagsByKeys`:

- `src/Number.ts:68` wraps a string key into a one-element array;
- `src-ts/Number.ts:64` splits it on commas.

`Numbers.KeysStyle` selects between the two. The table cites the `src/`
lines. The `src-ts/` counterparts are:

| `src/` | `src-ts/` |
|---|---|
| `src/Number.ts:161-169` | `src-ts/Number.ts:153-161` |
| `src/Number.ts:150-154` | `src-ts/Number.ts:142-146` |
| `src/Number.ts:127-144` | `src-ts/Number.ts:123-136` |
| `src/Number.ts:186-197` | `src-ts/Number.ts:177-188` |
| `src/Campaign.ts:326-335` | `src-ts/Campaign.ts:184-193` |
| `src/Campaign.ts:153-173` | `src-ts/Campaign.ts:58-78` |
| `src/Campaign.ts:181-221` | `src-ts/Campaign.ts:86-126` |
| `src/Campaign.ts:296-316` | `src-ts/Campaign.ts:157-177` |
| `src/Campaign.ts:341-363` | `src-ts/Campaign.ts:199-221` |
| `src/Campaign.ts:371-384` | `src-ts/Campaign.ts:229-242` |

**Parameters.** Some inputs come from the browser or from library code
this model does not contain. They are parameters of the model:

- the document's cookie string;
- `encodeURIComponent`/`decodeURIComponent`, as the jar's `encode` and
  `decode` functions;
- Base64 and `JSON.stringify`;
- the page's location and protocol;
- the values of the `CallPixels-ou` and `CallPixels-vid` cookies.

## Model

| member | source | states |
|---|---|---|
| `FindReplaceText.ProseTablesAgree` | src/vendor/FindAndReplaceDOMText.ts:47-86 | The prose preset's filter rejects only tags the non-inline-prose table lists, so a rejected element is always a forced context. |
| `FindReplaceText.Configure` | src/vendor/FindAndReplaceDOMText.ts:95-105 | find, wrap, replace and preset are kept. `portionMode` defaults to `retain`. With the `prose` preset, `filterElements` and `forceContext` are filled from the preset only when the caller left them unset. Without it they are kept as given. |
| `FindReplaceText.EscapeIsLiteral` | src/vendor/FindAndReplaceDOMText.ts:71-73 | Every special character of the escaped text is preceded by a backslash, and unescaping gives back the input. The pattern built at line 123 therefore matches the literal string. |
| `FindReplaceText.GetText` | src/vendor/FindAndReplaceDOMText.ts:186-227 | The loop over the children builds exactly the aggregation `Aggregate(node, options)`. |
| `FindReplaceText.AggregateText` | src/vendor/FindAndReplaceDOMText.ts:186-227 | Concatenating every leaf of the aggregation gives the data of the text nodes not under a rejected element, in document order. |
| `FindReplaceText.AggregateKidsText` | src/vendor/FindAndReplaceDOMText.ts:195-225 | The same holds for the loop over a child list, on top of what the accumulator already holds. |
| `FindReplaceText.AggregateChildText` | src/vendor/FindAndReplaceDOMText.ts:198-224 | The same holds for one child: a text node, a rejected element, a forced-context element or an inline element. |
| `FindReplaceText.ForcedChildKeepsOwnLeaves` | src/vendor/FindAndReplaceDOMText.ts:208-213 | A forced-context child adds its own leaves as a separate scope, followed by a fresh empty leaf. So none of its text joins a neighbour's leaf. |
| `FindReplaceText.InlineChildJoinsLeaf` | src/vendor/FindAndReplaceDOMText.ts:215-221 | An inline child's first leaf is appended to the current leaf, and the earlier runs are unchanged. |
| `FindReplaceText.AggregateKidsPrefix` | src/vendor/FindAndReplaceDOMText.ts:195-226 | Aggregating children only extends the accumulator: the runs before its last leaf are kept, and it still ends in a leaf. |
| `FindReplaceText.ExecAll` | src/vendor/FindAndReplaceDOMText.ts:140-175 | With an empty `find`, the loop of `exec` calls fails with the zero-length error. Otherwise it returns the leaf's matches, each shifted by the shared offset and numbered on from the current index. |
| `FindReplaceText.MatchAggregation` | src/vendor/FindAndReplaceDOMText.ts:130-156 | The recursive `matchAggregation` equals a search over the leaves in document order, with one shared offset and one shared match index. |
| `FindReplaceText.ZeroLengthRejected` | src/vendor/FindAndReplaceDOMText.ts:165-167 | The search fails exactly when `find` is empty and there is a leaf to search. |
| `FindReplaceText.LeafMatchesFields` | src/vendor/FindAndReplaceDOMText.ts:170-172 | Each match of a leaf carries the matched text, the leaf as its input, a length equal to `endIndex - startIndex`, and a consecutive index. |
| `FindReplaceText.LeafMatchesOccur` | src/vendor/FindAndReplaceDOMText.ts:141-143 | Each match of a leaf is an occurrence of `find` at or after the starting position. |
| `FindReplaceText.LeafMatchesSound` | src/vendor/FindAndReplaceDOMText.ts:141-143 | The matches of a leaf have the right fields and are occurrences of `find`. |
| `FindReplaceText.LeafMatchesOrdered` | src/vendor/FindAndReplaceDOMText.ts:141-143 | The matches of a leaf are in increasing order and do not overlap. |
| `FindReplaceText.LeafMatchesComplete` | src/vendor/FindAndReplaceDOMText.ts:141-143 | Every occurrence at or after the starting position overlaps some match: none is missed. |
| `FindReplaceText.SearchLeavesGood` | src/vendor/FindAndReplaceDOMText.ts:130-156 | For a non-empty `find`, the search over the leaves succeeds. Its matches are numbered 0, 1, 2, …, are occurrences at their offsets in the flattened text, are ordered without overlap, and each lies within one leaf. |
| `FindReplaceText.SearchProps` | src/vendor/FindAndReplaceDOMText.ts:119-159 | The same properties hold for the search of a whole aggregation. |
| `FindReplaceText.SearchExtends` | src/vendor/FindAndReplaceDOMText.ts:142 | Searching further leaves only appends matches to the ones found so far. |
| `FindReplaceText.SearchComplete` | src/vendor/FindAndReplaceDOMText.ts:141-143 | Every occurrence of `find` in any leaf overlaps some match, at that leaf's shared offset. |
| `FindReplaceText.SearchFindsEveryOccurrence` | src/vendor/FindAndReplaceDOMText.ts:119-159 | The same result, for the search of a whole aggregation. |
| `FindReplaceText.DigitRun` | src/vendor/FindAndReplaceDOMText.ts:419 | The length of the longest run of digits at the start of a text, as in the `\d+` of the substitution pattern. |
| `FindReplaceText.SubstitutePlain` | src/vendor/FindAndReplaceDOMText.ts:419-435 | A template without `$` is its own substitution. |
| `FindReplaceText.SubstituteTokens` | src/vendor/FindAndReplaceDOMText.ts:419-435 | The substitution tokens: `$&` and `$0` give the matched text, `$1` gives `''` for a literal pattern, `` $` `` gives the input before `startIndex`, and `$'` gives the input after `endIndex`. |
| `FindReplaceText.SubstituteWhole` | src/vendor/FindAndReplaceDOMText.ts:422-433 | `$&` and `$0` give the matched text. |
| `FindReplaceText.SubstituteNoGroup` | src/vendor/FindAndReplaceDOMText.ts:431-433 | For a literal pattern, a numbered group gives `''`. |
| `FindReplaceText.SubstituteSides` | src/vendor/FindAndReplaceDOMText.ts:425-430 | `` $` `` and `$'` slice the match input at `startIndex` and `endIndex`. |
| `FindReplaceText.PrepareModes` | src/vendor/FindAndReplaceDOMText.ts:412-443 | In `first` mode, a portion with `indexInMatch > 0` gets `''` and the first portion gets the whole substitution. In retain mode, an end portion that starts the match gets the whole substitution. |
| `FindReplaceText.RetainPortionsReassemble` | src/vendor/FindAndReplaceDOMText.ts:412-446 | In retain mode, the start and end portions' replacement texts, put together, give the whole substitution. |
| `FindReplaceText.PortionReplacement` | src/vendor/FindAndReplaceDOMText.ts:380-407 | The replacement of a portion has the prepared text. It is a bare text node when the text is empty or there is no `wrap`, and otherwise a wrapper element of the `wrap` tag. |
| `FindReplaceDom.VisitText` | src/vendor/FindAndReplaceDOMText.ts:252-284 | When a visited text node closes a non-empty match, the end portion belongs to that node. It ends at `endIndex` relative to the node, starts at the cursor's offset into the match, and a start portion exists. |
| `FindReplaceDom.VisitInside` | src/vendor/FindAndReplaceDOMText.ts:249-287 | A match that lies inside the visited node gives a start portion and an end portion in that same node. |
| `FindReplaceDom.VisitBefore` | src/vendor/FindAndReplaceDOMText.ts:249-287 | A node that ends before the next match opens no portion. |
| `FindReplaceDom.WalkUnfold` | src/vendor/FindAndReplaceDOMText.ts:248-327 | One step of the walk: a node that resolves a match is spliced and the walk goes on after the replacement; any other node is passed by. |
| `FindReplaceDom.ReplaceInNode` | src/vendor/FindAndReplaceDOMText.ts:340-356 | A single-node splice replaces the node with up to three pieces: the text before the match only if it is non-empty, the replacement, and the text after the match only if it is non-empty. The cursor moves to the match's `endIndex`, the walk resumes after the replacement, and one undo step is recorded. |
| `FindReplaceDom.StepInside` | src/vendor/FindAndReplaceDOMText.ts:290-327 | After a single-node splice the match is consumed, `atIndex` equals its `endIndex`, and the walk continues from the replacement's next sibling. |
| `FindReplaceDom.InsideBefore` | src/vendor/FindAndReplaceDOMText.ts:340-356 | After a splice, the visible text up to and including the replacement is the earlier text, the node's text before the match, and the substitution. |
| `FindReplaceDom.InsideAfter` | src/vendor/FindAndReplaceDOMText.ts:340-356 | After a splice, the text from the resume point on is the node's text after the match, followed by the later nodes. |
| `FindReplaceDom.StepBefore` | src/vendor/FindAndReplaceDOMText.ts:316-321 | A node before the next match is passed by: the cursor advances by its length and the walk moves on. |
| `FindReplaceDom.InsideStep` | src/vendor/FindAndReplaceDOMText.ts:290-356 | A single-node splice step: it consumes the match, keeps the walk's result, and splits the visible text into the part already rewritten and the rest. |
| `FindReplaceDom.InsideInNodes` | src/vendor/FindAndReplaceDOMText.ts:290-327 | After a single-node splice, the remaining matches still lie in the remaining nodes. |
| `FindReplaceDom.InsideShown` | src/vendor/FindAndReplaceDOMText.ts:340-356 | A single-node splice keeps the text the walk will show once it is finished. |
| `FindReplaceDom.BeforeInNodes` | src/vendor/FindAndReplaceDOMText.ts:316-321 | Passing by a node keeps the remaining matches within the remaining nodes. |
| `FindReplaceDom.BeforeShown` | src/vendor/FindAndReplaceDOMText.ts:316-321 | Passing by a node keeps the text the walk will show once it is finished. |
| `FindReplaceDom.WalkRewrites` | src/vendor/FindAndReplaceDOMText.ts:233-328 | When every match lies inside one text node, the walk consumes every match. The visible text becomes the original text with every match replaced by its substitution. |
| `FindReplaceDom.WalkRewritesTemplate` | src/vendor/FindAndReplaceDOMText.ts:233-328 | The same result for a walk from the first node, with the template substitution of the options. |
| `FindReplaceDom.RewriteIdentity` | src/vendor/FindAndReplaceDOMText.ts:340-356 | Replacing each of a list of ordered matches by the very text it spans gives the text back. |
| `FindReplaceDom.SearchSpans` | src/vendor/FindAndReplaceDOMText.ts:122-154 | Each match of the search spans, at its offsets in the flattened text, exactly its own `text`, and the matches come in order. |
| `FindReplaceDom.DefaultTemplateKeepsText` | src/vendor/FindAndReplaceDOMText.ts:381-381 | With the default template `$&`, substituting every match of a text leaves the text unchanged. |
| `FindReplaceDom.UndoSplice` | src/vendor/FindAndReplaceDOMText.ts:358-366 | The undo step of a splice removes the preceding and following pieces it inserted and puts the original node back in the replacement's place. |
| `FindReplaceDom.SpliceUndone` | src/vendor/FindAndReplaceDOMText.ts:340-366 | A splice keeps node ids fresh and unique. Reverting after it, with its undo step last, gives what reverting the earlier steps gave before it. |
| `FindReplaceDom.SpliceUndoneAt` | src/vendor/FindAndReplaceDOMText.ts:340-366 | The same result for a splice at a position of the strip. |
| `FindReplaceDom.InsideUndo` | src/vendor/FindAndReplaceDOMText.ts:340-366 | A single-node splice of the walk keeps ids fresh and leaves unchanged what a full revert gives. |
| `FindReplaceDom.InsideRevertStep` | src/vendor/FindAndReplaceDOMText.ts:290-366 | A whole splice step of the walk consumes the match and leaves unchanged what a full revert gives. |
| `FindReplaceDom.WalkReverts` | src/vendor/FindAndReplaceDOMText.ts:358-366 | When every match lies inside one node, reverting all the steps the walk recorded gives back what reverting the steps before the walk gave. |
| `FindReplaceDom.RevertLast` | src/vendor/FindAndReplaceDOMText.ts:451-456 | Reverts run in reverse order: the step recorded last is undone first. |
| `FindReplaceDom.WalkRevertsDocument` | src/vendor/FindAndReplaceDOMText.ts:451-456 | For a walk of a fresh document whose matches each lie inside one node, reverting gives back the original text nodes. |
| `FindReplaceDom.MultiNodeSplice` | src/vendor/FindAndReplaceDOMText.ts:369-374 | A match whose start and end nodes differ replaces only the end node with the replacement, leaves every other node unchanged, and records no undo step, as written. |
| `FindReplaceDom.TwoNodeWalk` | src/vendor/FindAndReplaceDOMText.ts:369-374 | Matching `"bc"` across the nodes `"ab"` and `"cd"` leaves `"ab"` and the end portion's replacement, and records no revert. The start node keeps its `"b"`, and the end node's `"d"` is lost. |
| `FindReplaceDom.TwoNodeWalkModes` | src/vendor/FindAndReplaceDOMText.ts:412-442 | In that example, the end portion's replacement is `"c"` in retain mode and `""` in first mode. |
| `FindReplaceDom.Finder.constructor` | src/vendor/FindAndReplaceDOMText.ts:88-93 | A finder holds the document, options and matches, with no reverts recorded. |
| `FindReplaceDom.Finder.Splice` | src/vendor/FindAndReplaceDOMText.ts:333-375 | `replaceMatch` changes the document as the splice function says, returns the resume point, and appends an undo step only for a single-node match. |
| `FindReplaceDom.Finder.Scan` | src/vendor/FindAndReplaceDOMText.ts:252-284 | The portion bookkeeping for one visited text node. |
| `FindReplaceDom.Finder.ProcessMatches` | src/vendor/FindAndReplaceDOMText.ts:233-328 | The `processMatches` loop leaves the document, the next id and the reverts as the walk says. It consumes every match the walk consumes. |
| `FindReplaceDom.Finder.VisitNode` | src/vendor/FindAndReplaceDOMText.ts:249-314 | One iteration of the loop keeps the result of the walk from that point. A node that resolves no match is not changed. |
| `FindReplaceDom.Finder.Revert` | src/vendor/FindAndReplaceDOMText.ts:451-456 | `revert` applies every recorded undo step in reverse order and empties the list, so a second `revert` changes nothing. |
| `FindReplaceDom.SearchNonEmpty` | src/vendor/FindAndReplaceDOMText.ts:109-113 | A search that found matches had a non-empty `find`, so every match is non-empty before the walk begins. |
| `FindReplaceDom.FindAndReplace` | src/vendor/FindAndReplaceDOMText.ts:94-114 | `findAndReplaceDOMText` fails with the zero-length error exactly when the search does, before any node is touched. Otherwise it configures the options, searches the aggregation and walks the document's text nodes. |
| `FindReplaceDom.WalkEmpty` | src/vendor/FindAndReplaceDOMText.ts:111 | With no matches, the walk changes nothing. |
| `FindReplaceDom.FindAndReplaceInNodes` | src/vendor/FindAndReplaceDOMText.ts:94-114 | When every match lies inside one text node, the engine consumes every match and shows the flattened text with each match substituted. Reverting gives back the original text nodes. |
| `FindReplaceDom.DefaultReplaceKeepsText` | src/vendor/FindAndReplaceDOMText.ts:94-114 | With no `replace` (or `''` or `$&`) and every match inside one text node, the document shows exactly its original text afterwards, with or without a `wrap`. |
| `Helpers.AssertRequiredKeys` | retreaver-typescript/src/base/Helpers.ts:15-25 | The object is returned unchanged exactly when every key is defined. Otherwise the call fails with a message listing all the keys, or with a type error when the object is `null`. |
| `Helpers.MergeObjects` | retreaver-typescript/src/base/Helpers.ts:33-46 | The loops of `merge` compute the recursive merge `Merge(obj1, obj2, 0)`. In that merge, writing a property of `undefined`, `null` or a primitive throws. Arrays and functions take the writes without throwing. |
| `Helpers.MergeIntoObject` | retreaver-typescript/src/base/Helpers.ts:33-46 | Merging into an object always succeeds and gives an object. |
| `Helpers.MergeIntoNonObject` | retreaver-typescript/src/base/Helpers.ts:36-43 | Merging a non-empty object into `undefined`, `null` or a primitive fails with a type error, because strict-mode code cannot assign a property of those. |
| `Helpers.MergeIntoArrayOrFunction` | retreaver-typescript/src/base/Helpers.ts:33-46 | Merging into an array or a function never throws, and it returns that same array or function. |
| `Helpers.MergeGet` | retreaver-typescript/src/base/Helpers.ts:33-46 | Each key of the merge holds the merged value of that key: the argument's value, an inner merge, or the target's value. An inner merge into an array or a function keeps that array or function. |
| `Helpers.MergeKeeps` | retreaver-typescript/src/base/Helpers.ts:33-46 | Keys of `obj1` that are absent from `obj2` are unchanged. |
| `Helpers.MergeOverwrites` | retreaver-typescript/src/base/Helpers.ts:38-42 | A value of `obj2` that is not an object overwrites `obj1`'s. |
| `Helpers.MergeKeepsArrayOrFunction` | retreaver-typescript/src/base/Helpers.ts:36-37 | Where `obj1` holds an array or a function and `obj2` holds a plain object at the same key, the key keeps the array or function. |
| `Helpers.MergeNested` | retreaver-typescript/src/base/Helpers.ts:36-37 | Where both sides hold objects, the merge recurses and keeps `obj1`'s other nested keys. |
| `Helpers.IsArray` | retreaver-typescript/src/base/Helpers.ts:53-55 | True exactly for arrays. |
| `Cookies.ExtendedOptions` | src/base/Cookies.ts:73-79 | The path falls back to the default `/` when unset or empty, and the domain likewise to the default. `secure` is the caller's whenever it is defined. |
| `Cookies.KeptOctets` | src/base/Cookies.ts:99 | The characters the value encoder keeps are exactly the cookie octets of section 4.1.1 of RFC 6265, other than `%`. |
| `Cookies.EncodeValue` | src/base/Cookies.ts:99 | A value made only of kept characters is written as it is. |
| `Cookies.EncodeValueNoSemicolon` | src/base/Cookies.ts:99 | When the encoder never produces `;`, neither does the encoded value. |
| `Cookies.CookieStringParts` | src/base/Cookies.ts:97-106 | The cookie string is `name=value`, then `;path=P` only if a path is set, `;domain=D` only if a domain is set, and `;secure` only if secure, in that order. |
| `Cookies.CookieStringSplits` | src/base/Cookies.ts:97-106 | Splitting the cookie string at `;` gives back `name=value` and each attribute present, when no part holds a `;`. |
| `Cookies.KeyValuePair` | src/base/Cookies.ts:132-140 | A cookie pair splits at its first `=`. With no `=`, the key is the whole segment and the value is the decode of `''`. |
| `Cookies.KeyValueJoin` | src/base/Cookies.ts:132-140 | Splitting `k=v` with `=` not in `k` gives back the decoded `k` and `v`. |
| `Cookies.AddPairsFirstWins` | src/base/Cookies.ts:117-122 | The parse loop keeps the first occurrence of a repeated key. A key is present exactly when some segment has it. |
| `Cookies.ParseEmpty` | src/base/Cookies.ts:115 | An empty cookie string parses to no cookies. |
| `Cookies.ParseFirstWins` | src/base/Cookies.ts:113-125 | A cookie is present exactly when a `'; '`-separated segment has its key. Its value is that of the first such segment. |
| `Cookies.CookieObjectFromString` | src/base/Cookies.ts:113-125 | The parse loop computes exactly the cookie parse of the string. |
| `Cookies.CookieJar.constructor` | src/base/Cookies.ts:25-28 | A new jar has an empty cache, an empty cached cookie string and the default path `/`. |
| `Cookies.CookieJar.RenewCache` | src/base/Cookies.ts:145-148 | The cache becomes the parse of the current document cookie string, which is remembered. |
| `Cookies.CookieJar.Get` | src/base/Cookies.ts:48-53 | The cache is re-parsed only when the document cookie string changed, and the result is that string's value for the name. |
| `Cookies.CookieJar.Set` | src/base/Cookies.ts:62-66 | Exactly the generated cookie string, with the extended options, is written to the document cookie. The jar itself is returned for chaining, and the cache is untouched. |
| `Data.Store.constructor` | src/base/Data.ts:9 | The global store starts empty. |
| `Data.AssignedRecords` | src/base/Data.ts:61 | Writing a record puts it in its slot and leaves every other type and key as it was. |
| `Data.AssignedTwice` | src/base/Data.ts:61 | A second write to a slot overrides the first. |
| `Data.InitializedRecords` | src/base/Data.ts:20-30 | Initialisation creates the type bucket and the record only when absent. It never clears an existing record or touches another. |
| `Data.OverlayGet` | src/base/Data.ts:70-75 | After merging, each key of the argument has the argument's value and every other key keeps the record's. |
| `Data.PickGet` | src/base/Data.ts:45-48 | Picking several keys gives an object with exactly those keys, each holding the record's value or `undefined`. |
| `Data.PickFields` | src/base/Data.ts:45-48 | The loop over the keys computes the pick. |
| `Data.Data.constructor` | src/base/Data.ts:20-30 | A view of a type and a primary key initialises its slot in the shared store. |
| `Data.Data.New` | src/base/Data.ts:12-30 | Construction fails, leaving the store unchanged, exactly when `type` or `primary_key` is missing. Otherwise it initialises that slot. |
| `Data.Data.Get` | src/base/Data.ts:37-52 | With no keys, the whole record. With one key, its value. With several keys, an object of exactly those keys. |
| `Data.Data.Set` | src/base/Data.ts:60-63 | `set(k, v)` returns `v`, stores it under `k` in the record, and changes nothing else. |
| `Data.Data.Merge` | src/base/Data.ts:70-75 | `merge` overwrites every key of the argument, keeps the others, and returns the argument. |
| `Data.SharedRecord` | src/base/Data.ts:23-61 | Two views of the same type and primary key share one record: a `set` through one is seen through the other, and other keys are kept. |
| `Models.Registry.constructor` | src-ts/base/Model.ts:15 | The primary-key registry starts empty. |
| `Models.PrimaryKey` | src-ts/base/Model.ts:166-176 | An explicit key is registered and returned. Without one, the registered key is returned, or `id`, which is then registered. |
| `Models.UpdateVisitorId` | src-ts/base/Model.ts:154-158 | Fails with a type error for `null`. Otherwise it writes the visitor-id cookie exactly when the record has a `visitor_id`, and nothing else changes. |
| `Models.RecordUpdateTypes` | src-ts/base/Model.ts:135-148 | Updating one record touches only its own type's bucket and creates no type. |
| `Models.ItemsUpdateTypes` | src-ts/base/Model.ts:117-120 | An element-wise array update touches only its own type's bucket. |
| `Models.ResponseUpdateTypes` | src-ts/base/Model.ts:110-127 | A response update creates no type, and leaves untouched every type no response key maps to. |
| `Models.RecordUpdateCopies` | src-ts/base/Model.ts:138-146 | After a successful record update, every field of the record is copied into the stored record, and its other fields are kept. |
| `Models.CopyFields` | src-ts/base/Model.ts:142-144 | The copy loop overlays the fields onto the stored record. |
| `Models.UpdateRecord` | src-ts/base/Model.ts:135-148 | `updateRecord` changes the registry, the store and the written cookies exactly as the record update says. |
| `Models.UpdateItems` | src-ts/base/Model.ts:117-120 | The loop over an array's items performs each record update in turn. |
| `Models.Update` | src-ts/base/Model.ts:110-127 | `update` maps `number` to `numbers` and `campaign` to `campaigns`, and skips types absent from the store. It returns its input unchanged, unless a record update fails. |
| `Models.Model.constructor` | src-ts/base/Model.ts:11-13 | A new model has no data store. |
| `Models.Model.DataConfig` | src-ts/base/Model.ts:44 | The configuration `store` hands to `Data` defines `type` and `primary_key`. |
| `Models.Model.EnsureData` | src-ts/base/Model.ts:43-45 | The record store is created once, on the first call, for the primary-key value, and kept after that. |
| `Models.Model.Store` | src-ts/base/Model.ts:36-51 | `undefined` changes nothing. Data without the primary-key field fails with the missing-key message. Otherwise the store is created once, the data is merged into the record, and the visitor id is written. |
| `Models.Model.StoreRecord` | src-ts/base/Model.ts:43-49 | The part of `store` after the key check: create the record store if needed, merge the data, write the visitor id. |
| `Models.Model.Set` | src-ts/base/Model.ts:80-86 | The value passes through the key's setter when there is one. A failing setter changes nothing. Otherwise the result is stored under the key and returned. |
| `Models.Model.Get` | src-ts/base/Model.ts:93-95 | `get` reads the record as `Data.get` does; without a record store it fails with a type error. |
| `Numbers.FirstPart` | src/Number.ts:161-169 | The first `:`-segment of a tag is the text before its first `:`. |
| `Numbers.TagKey` | src/Number.ts:161-169 | A tag's key is its longest prefix without `:`. |
| `Numbers.TagValueAfterColon` | src/Number.ts:161-169 | A tag's value is the segment after the first `:`, or `undefined` when there is none. |
| `Numbers.LastTag` | src/Number.ts:161-169 | It finds nothing exactly when no segment has the key. |
| `Numbers.TagsFromGet` | src/Number.ts:161-169 | In the parsed tags, each key holds the value of its last segment: later duplicates overwrite earlier ones. |
| `Numbers.ExtractTagsFromString` | src/Number.ts:161-169 | The loop over the `,`-segments builds exactly the parsed tags. |
| `Numbers.PerVisitorCheck` | src/Number.ts:150-154 | Throws exactly when `is_per_visitor` is the boolean `false`. |
| `Numbers.Payload3` | src/Number.ts:69-73 | The three-key payload object has its keys in order, each with its value. |
| `Numbers.TagsPayload` | src/Number.ts:127-144 | The payload holds `tag_values` (string tags parsed, objects passed through), `ids = [id]` and the number's `campaign_key`, in that order. |
| `Numbers.KeyArray` | src/Number.ts:66-68 | A string key list is wrapped into a one-element array here. In the other version it is split on commas: the pieces are strings without a comma that join back with `,` into the list. Anything else is passed through. |
| `Numbers.TagRequest` | src/Number.ts:34-90 | Every tag operation fails exactly when the number is not per-visitor. Otherwise its payload carries `[id]`, the `campaign_key`, and the tag values, the `tag_keys` or `all`, at the operation's path. |
| `Numbers.SetActive` | src/Number.ts:23-26 | Sets `is_active` to the flag in the number's record. |
| `Numbers.NewNumber` | src/Number.ts:18-26 | A new number exists exactly when the options carry its primary key. Otherwise the missing-key error is thrown, or a type error for `null`. The number's type gets `id` as its primary key when it had none; with `undefined` options the registered keys stay as they were. A new number is stored active (`'true'`) under the slot its key names, and every other stored number is kept as it was. The stored record is the options' fields merged over the record that was there, with `is_active` then set to `'true'`; the whole table is the one `BuiltBuckets` describes. Tables of other types are unchanged. The visitor cookie is written only when the options carry a `visitor_id`. When construction fails, the store and the cookies are unchanged. |
| `Numbers.BuiltBucketsKeep` | src/Number.ts:23-26 | The table a construction leaves (`store(data)`, then `set('is_active', 'true')`): the number's slot is active and holds the merged record with `is_active` set; every other slot of the numbers table, and every table of another type, keeps its records. |
| `Numbers.Release` | src/Number.ts:95-97 | `release` sets `is_active` to `'false'`. |
| `Numbers.GroupedGet` | src/Number.ts:186-197 | Each campaign's group holds parallel `ids` and `hashes` of its active numbers, in store order. Campaigns with no active number have no group. |
| `Numbers.GroupActiveNumbers` | src/Number.ts:186-197 | The grouping loop computes exactly the grouping. |
| `Numbers.PingAsWrittenSendsNothing` | src/Number.ts:176-211 | As written, neither static lookup finds anything. The store read is `{}`, so even with an active number nothing is pinged, while the intended ping for the same table has a payload. |
| `Numbers.PingRequestsResolved` | src/Number.ts:176-211 | The intended ping is the code as written, with `getStore` finding the record table and `connection` existing. |
| `Numbers.PingPayloadsAt` | src/Number.ts:200-204 | One ping payload per group, with its `ids` and `hashes`. |
| `Numbers.PingCoversActive` | src/Number.ts:186-209 | With the intended store read, every active number's id is in the ping of its campaign. |
| `Numbers.ActiveIdsHas` | src/Number.ts:186-197 | An active number's id is in its campaign's `ids`. |
| `Campaigns.SetNumberMatchingTags` | src/Campaign.ts:326-335 | Strings are parsed into tags, and non-array objects are returned unchanged. Arrays, `null` and other values fail with the tags error. |
| `Campaigns.TagsUnvalidatedAsWritten` | src/Campaign.ts:326-335 | As written, no setter is registered under `number_matching_tags`, although the setter would refuse an array. |
| `Campaigns.AssignTags` | src/Campaign.ts:326-335 | With the intended setter, a value that is not a string or an object is refused with the tags error and nothing is stored. A string is parsed first. An array or `null` is refused the same way. A campaign without data throws a type error once the value is valid. When the value is accepted, the result is the validated object, it is stored under `number_matching_tags`, and the table becomes the campaign's record with that one key written. |
| `Campaigns.NormalizeArgs` | src/Campaign.ts:153-173 | A function as the first argument means tags `{}`, and the second argument is the error callback. Otherwise falsy tags become `{}`, and a missing success callback becomes a no-op. |
| `Campaigns.Dispatch` | src/Campaign.ts:181-221 | A `null` response throws. The success branch is taken exactly when `data.number` is defined and not `''`. Otherwise the error callback fires if it is a function. |
| `Campaigns.Respond` | src/Campaign.ts:181-221 | Off the success branch, the outcome is the dispatch's, and nothing is stored and no link changes. On it, the steps run in the source's order: build the number, apply `replacement_numbers`, then call the success callback. The callback is reached exactly when all of these hold: the number carries its primary key; `replacement_numbers` is not `null`; none of its texts to find is empty; and the callback is a function. Otherwise the outcome is the throw of the first failing step, with that step's message. The links end as the pairs handled before the first empty text to find. On the success branch, the numbers type gets its primary key registered. Tables of other types are unchanged. When the number carries its primary key, its record is stored as `NewNumber` says: active, with the number's fields merged in, with other numbers kept, and with the visitor cookie written if the number has a `visitor_id`. Otherwise the store and the cookies are unchanged. |
| `Campaigns.AutoReplaceAnswers` | src/Campaign.ts:259-273 | `autoReplaceNumbers` always answers a response, by a replacement or by its error callback. |
| `Campaigns.MatchingNumbersSound` | src/Campaign.ts:296-316 | Every number returned has the campaign's key and comes from the store. |
| `Campaigns.MatchingNumbersComplete` | src/Campaign.ts:296-316 | Every stored number with the campaign's key is returned. |
| `Campaigns.CampaignNumbers` | src/Campaign.ts:296-316 | The loop builds one number object for each matching record, in store order, or none when there is no number bucket. Each object is new and holds its record's slot, and that slot is stored active. When a matching record lacks the primary key, the missing-key error is thrown. The records built before the throw (all of them on success) have written their visitor cookies, in order. The numbers type has its primary key registered exactly when some record matched. No table of another type changes, and the cookie defaults are kept. |
| `Campaigns.BuildNumber` | src/Campaign.ts:310 | One `new RetreaverNumber(number)` of the loop. It succeeds exactly when the record carries the primary key, and otherwise throws the missing-key error with the store and the cookies unchanged. Either way the numbers type gets its primary key registered. On success it returns a new number object on the shared store, holding the record's slot. The table becomes the one the construction builds: that slot active with the record merged in, every other number record kept. The record's visitor cookie is written. |
| `Campaigns.VisitNumber` | src/Campaign.ts:309-311 | A record of this campaign met by the loop becomes a new number object appended to those built so far, and the earlier ones stay active. Its cookie writes and the key registration join the listing's trace. When the record lacks the primary key, the missing-key error is thrown, with the trace as it was and the key registered. |
| `Campaigns.TraceNumber` | src/Campaign.ts:310 | One construction, seen from the start of the listing: the registered keys, the tables of other types and the cookies written stay as the listing so far plus this record describes. |
| `Campaigns.StepNumber` | src/Campaign.ts:307-311 | One pass of the loop over the stored number at `i` extends the listing from the first `i` numbers to the first `i + 1`, or throws the missing-key error at a record of the campaign without the key. |
| `Campaigns.ProgressSkip` | src/Campaign.ts:309 | A record of another campaign is skipped: the listing after it is the listing before it. |
| `Campaigns.ListNumbers` | src/Campaign.ts:307-312 | The `for…in` loop: on success, every matching record has been built, in order; on the throw, the records matched before the failing one. |
| `Campaigns.ListedPrefixAll` | src/Campaign.ts:307-312 | When every matching record has the primary key, the loop gets through all of them. |
| `Campaigns.ListedPrefixStops` | src/Campaign.ts:307-312 | The loop stops at the first matching record without the primary key. |
| `Campaigns.ListingStops` | src/Campaign.ts:307-312 | When the loop throws at a record, the records it got through are exactly those before the first matching record without the key. |
| `Campaigns.ListingCompletes` | src/Campaign.ts:307-312 | When the loop finishes, it got through every matching record, and each has the key. |
| `Campaigns.MatchingNumbersAppend` | src/Campaign.ts:307-311 | The records matching in two runs of the table are those of the first run, then those of the second. |
| `Campaigns.MatchingNumbersSplit` | src/Campaign.ts:307-311 | The records matching in a table are those before any index, then those from it on. |
| `Campaigns.ListedWritesSnoc` | src/Campaign.ts:310 | One more number built adds its visitor cookie writes after those of the earlier ones. |
| `Campaigns.IntegrationConfig` | src/Campaign.ts:371-384 | `null` integrations throw a type error. A defined entry of an object `integrations` is returned. Anything else gives `undefined`. |
| `Campaigns.TelPrefix` | src/Campaign.ts:353-359 | The prefix is recognised exactly for hrefs starting with `tel:` or `clk` followed by a letter and `/tel/`. |
| `Campaigns.HrefRewriteChanges` | src/Campaign.ts:350-361 | A link changes only when it has the prefix and its remainder equals `find`. It becomes the same prefix followed by `replace_with`; null hrefs stay null. |
| `Campaigns.TelLinkRewritten` | src/Campaign.ts:353-359 | `tel:` followed by the number sought becomes `tel:` followed by its replacement. |
| `Campaigns.RewriteAll` | src/Campaign.ts:350-361 | Each link is rewritten on its own. |
| `Campaigns.ApplyPairsAppend` | src/Campaign.ts:341-363 | Replacement pairs are applied in array order. |
| `Campaigns.ApplyPairsShape` | src/Campaign.ts:341-363 | The rewrite keeps the number of links and leaves links without an href without one. |
| `Campaigns.RewriteLinks` | src/Campaign.ts:350-361 | The loop over the links rewrites the array in place, as the rewrite of each link says. |
| `Campaigns.ReplacementPairs` | src/Campaign.ts:342-347 | The entries decode exactly when each has a string `find` and `replace_with`. The pairs are those strings, one per entry, in order. |
| `Campaigns.BodySearchFails` | src/Campaign.ts:345-348 | The engine's search over the page body fails exactly when the text to find is empty. Every body yields a run to search, so this does not depend on the body. |
| `Campaigns.BodyConfigured` | src/vendor/FindAndReplaceDOMText.ts:95-105 | The engine's option handling turns one pair's options into `BodyConfig`: the pair's `find` and `replace`, with `portionMode` set to `retain` and nothing filled in by a preset. |
| `Campaigns.ReplaceInBody` | src/Campaign.ts:345-348 | The engine call of one pair throws the zero-length error exactly when `find` is empty. Otherwise it returns a new finder configured with the pair as `find` and `replace`. |
| `Campaigns.PairsDone` | src/Campaign.ts:342-362 | The number of pairs before the first one whose text to find is empty. |
| `Campaigns.FindAndReplaceNumber` | src/Campaign.ts:341-363 | Each pair, in order, runs the engine on the page body and then goes over the links. The call throws the zero-length error exactly when some pair's `find` is empty. The link array ends as the pairs before that one applied in turn: the failing pair and those after it touch no link. When the call succeeds, there is one new finder per pair, configured with that pair. |
| `RequestNumbers.NewRequestNumber` | retreaver-typescript/src/base/RequestNumber.ts:38-40 | The options are kept exactly when `campaign_key` is defined. Otherwise the required-key error is thrown. |
| `RequestNumbers.Query` | retreaver-typescript/src/base/RequestNumber.ts:165-171 | There is no query exactly when the URL has no `?`. |
| `RequestNumbers.MatchAt` | retreaver-typescript/src/base/RequestNumber.ts:173-179 | A match of `([^?=&]+)(=([^&]*))?` has a non-empty key without delimiters. Its value, when there is an `=`, runs to the next `&`; otherwise it is `undefined`. |
| `RequestNumbers.NextMatch` | retreaver-typescript/src/base/RequestNumber.ts:173-179 | There is no further match exactly when only delimiters are left. |
| `RequestNumbers.UrlPartsGet` | retreaver-typescript/src/base/RequestNumber.ts:163-182 | A URL without `?` gives `{}`. Otherwise each key holds the value of its last `key[=value]` pair after the `?`, and no key repeats. |
| `RequestNumbers.ScanKeys` | retreaver-typescript/src/base/RequestNumber.ts:176 | Every key read is lowercased and non-empty. |
| `RequestNumbers.GetUrlParts` | retreaver-typescript/src/base/RequestNumber.ts:163-182 | The `replace` callback's loop over the matches computes exactly the URL's parts. |
| `RequestNumbers.AllPartsGet` | retreaver-typescript/src/base/RequestNumber.ts:147-156 | Keys from later URLs override those of earlier ones. |
| `RequestNumbers.GetParts` | retreaver-typescript/src/base/RequestNumber.ts:147-156 | The two loops of `getParts` compute exactly the combined parts. |
| `RequestNumbers.FirstFoundSpec` | retreaver-typescript/src/base/RequestNumber.ts:227-236 | `findOne` gives the value of the first name present, or `false` when none is. |
| `RequestNumbers.FindName` | retreaver-typescript/src/base/RequestNumber.ts:229-233 | The inner loop finds the first key equal to the name. |
| `RequestNumbers.FindOne` | retreaver-typescript/src/base/RequestNumber.ts:227-236 | The nested loops compute exactly the first value found. |
| `RequestNumbers.TagsToScriptTags` | retreaver-typescript/src/base/RequestNumber.ts:243-250 | The loop concatenates `&key=value` for each tag in key order, and gives `''` for no tags. |
| `RequestNumbers.ScriptTagsReadBack` | retreaver-typescript/src/base/RequestNumber.ts:243-250 | Read back by the query-string pattern, the script-tag string gives back the tags, with keys lowercased. |
| `RequestNumbers.RequestUrlReadsBack` | retreaver-typescript/src/base/RequestNumber.ts:51-59 | The request URL is the resource path with `&campaign_key=`, then `&default_number=` and `&message=` only when set, in that order. Its query reads back as those pairs. |
| `RequestNumbers.ExtractCookie` | retreaver-typescript/src/base/RequestNumber.ts:211-219 | The value after the first `name=` up to the next `;`, or `false` when there is none. |
| `RequestNumbers.GACookiesGet` | retreaver-typescript/src/base/RequestNumber.ts:188-204 | `{}` when `__utma` is missing or empty. Otherwise each analytics cookie present with a value, skipping the missing ones. |
| `RequestNumbers.GetGACookies` | retreaver-typescript/src/base/RequestNumber.ts:188-204 | The loop, which stops at once without `__utma`, computes exactly those cookies. |
| `RequestNumbers.Body` | retreaver-typescript/src/base/RequestNumber.ts:61-72 | The body holds `u`, `st` and, when sent back, `ou`, in that order. |
| `RequestNumbers.PrepareRequest` | retreaver-typescript/src/base/RequestNumber.ts:46-72 | A callback that is not a function throws. Otherwise the URL is built, `u` and `st` are encoded, and the `CallPixels-ou` cookie is written when reset or unset, else sent back as `ou`. |
| `RequestNumbers.PendingRequest.constructor` | retreaver-typescript/src/base/RequestNumber.ts:74-75 | No request has run and nothing has been sent. |
| `RequestNumbers.PendingRequest.RunRequest` | retreaver-typescript/src/base/RequestNumber.ts:86-91 | Sends the body unless a request already ran. |
| `RequestNumbers.PendingRequest.SendGARequest` | retreaver-typescript/src/base/RequestNumber.ts:77-84 | Adds the encoded `ga` and `c` fields and sends, unless a request already ran. |
| `RequestNumbers.PendingRequest.Deliver` | retreaver-typescript/src/base/RequestNumber.ts:74-91 | Any sequence of triggers sends at most one request: the first trigger's. |
| `RequestNumbers.Perform` | retreaver-typescript/src/base/RequestNumber.ts:46-93 | `perform` throws for a non-function callback. Otherwise it prepares the request and the shared state, with nothing sent yet. |
| `Requests.Request.Make` | src-ts/base/Request.ts:13-15 | The helper keeps its configuration. |
| `Requests.Request.New` | src-ts/base/Request.ts:13-15 | Construction succeeds exactly when `http_prefix`, `addr` and `urlregex` are all defined. Otherwise it throws the required-key error. |
| `Requests.RemoveFirstColon` | src-ts/base/Request.ts:247 | Without a `:` the string is unchanged. Otherwise exactly the first `:` is removed: the result is the text before it followed by the text after it. |
| `Requests.ConnectionConfig` | src-ts/base/Request.ts:247-252 | The shared configuration has `addr` set to `api.rtvrapi.com`, the protocol without its colon, and the URL pattern, so it passes the constructor's check. |
| `Requests.ConnectionUrl` | src-ts/base/Request.ts:83-86 | The shared connection's request URL is the protocol without its colon, `://`, the API host, then the URI. |
| `Requests.TrailingColon` | src-ts/base/Request.ts:247 | A protocol ending in its only colon loses exactly that colon. |
| `Requests.Connections.constructor` | src-ts/base/Request.ts:11 | No connection exists at first. |
| `Requests.Connections.Connection` | src-ts/base/Request.ts:245-255 | The first call builds the connection with that configuration, and later calls return the same instance. |
| `Requests.VisitorPayload` | src-ts/base/Request.ts:88-90 | `visitor_id` is copied only when there is a payload and the cookie is defined and not `'null'`. Other keys are kept, and a primitive payload throws in strict mode. |
| `Requests.CallbackList` | src-ts/base/Request.ts:31-36 | A function becomes `[f]`, an array is kept, and anything else becomes `[]`. |
| `Requests.FiredSpec` | src-ts/base/Request.ts:103-109 | Exactly the callbacks that are functions are called. |
| `Requests.RunCallbacks` | src-ts/base/Request.ts:103-109 | The loop calls the function callbacks, in order. |
| `Requests.NormalisedFired` | src-ts/base/Request.ts:92-109 | A response goes to the one function given, to the functions of the array given, or to nobody. |
| `Requests.BuildPost` | src-ts/base/Request.ts:197-203 | The loop concatenates `k=v&` for each key in order. |
| `Requests.PostVarsJoin` | src-ts/base/Request.ts:197-203 | The post body is the `k=v` texts joined by `&`, with a trailing `&`. |
| `Requests.BuildPostSplits` | src-ts/base/Request.ts:197-203 | An empty object gives `''`. Splitting the body at `&` gives back each `k=v`, then `''`, when no key or value holds `&`. |

## Left out

- The transports are not modelled: XHR, XDomainRequest, easyXDM RPC, `withIeScripts`, `loadScript` and `JSON.parse` of responses. They are network and browser plumbing (`src-ts/base/Request.ts:38-62`, `98-169`, `175-239`).
  - What is sent is recorded as URL and body.
  - `postJSON` is a plain alias of `getJSON`.
  - `Model.getData` and `Model.connection` only hand requests to these transports.
- The timer-driven integrations are not modelled: Google Analytics, TrueCall, RedTrack and ClickFlare polling (`src/Campaign.ts:386-531`, `src-ts/Campaign.ts:244-389`). They rely on `setInterval`, promises and foreign scripts.
- The analytics tracker probing with `eval` and the one-second `setTimeout` in `perform` are not modelled (`retreaver-typescript/src/base/RequestNumber.ts:93-139`). Instead, `PendingRequest.Deliver` takes any sequence of the triggers they can produce.
- The 15-second re-scheduling of pings is a timer and is not modelled (`src/Number.ts:214-218`).
- General regular expressions for `find` are not modelled, nor the non-global branch (`src/vendor/FindAndReplaceDOMText.ts:144-151`). The library passes a literal string, and the model treats `find` as one.
- A function-valued `replace` and an element-valued `wrap` are opaque (`src/vendor/FindAndReplaceDOMText.ts:384-392`).
  - The walk lemmas take the replacement maker as an abstract function.
  - A string `wrap` is a tag name.
- The live DOM tree is not modelled. The walk runs over the document-order strip of the text nodes it visits. So the following are not captured:
  - `nodeStack` descent into elements;
  - parent links;
  - the re-insertion of nodes under a parent.
- `FindReplaceDom.WalkRewrites`: its "rewritten text" result is proved only for match lists whose every match lies inside one text node. Multi-node matches are modelled as written and shown by `TwoNodeWalk`. Their visible result is not a plain substitution.
- `FindReplaceDom.WalkReverts`: its "revert undoes the walk" result is proved only when every match lies inside one text node. A multi-node splice records no undo step, so for those matches revert does not restore the text.
- `Helpers.MergeObjects` is modelled on values, so the in-place mutation and aliasing of `obj1` are not captured. When `obj1` and every nested target are plain objects, the returned merge is what `obj1` becomes.
- These are parameters, not modelled functions:
  - `encodeURIComponent`/`decodeURIComponent`;
  - the `Base64` module;
  - `JSON.stringify`;
  - the `Helpers.merge` that `src/` imports from `src/base/Helpers`. It is not part of this model.
- `Helpers.ieVersion` browser sniffing is not modelled (`retreaver-typescript/src/base/Helpers.ts:61-85`).
- The `cookie()` get/set dispatch on the argument count (`src/base/Cookies.ts:37-41`) and `areEnabled` (`src/base/Cookies.ts:154-156`) are not modelled. They depend on how the browser's cookie store reacts to a write, so a written cookie string is recorded and not parsed back into the document cookie.
- Outside ASCII, `toLowerCase` is not modelled, and `for…in` order for integer-like keys is not either. JavaScript objects are modelled as insertion-ordered lists.
- `Helpers.MergeObjects`, `Helpers.Merge` and `Requests.VisitorPayload`: properties set on array and function targets are not modelled, so the array or function comes back as it was. In the source, such writes can have effects:
  - an index key or `length` changes an array's items;
  - an invalid `length` throws a RangeError;
  - in strict mode, writing a function's read-only `name` or `length` throws a TypeError.
- `for…in` over strings and arrays is not modelled.
- `Campaigns.NormalizeArgs` and `Campaigns.Dispatch` do not model the number request they surround. Building the `RequestNumber` and calling `getJSON` are covered by `RequestNumbers`. `Campaigns.Respond` adds the success branch: the number construction, the replacement step and the callback call. The integrations between them are not part of `Respond`: each is wrapped in a `try` and changes nothing the model holds.
- `Campaigns.Respond`: `replacement_numbers` values other than `undefined`, `null` and an array of objects with string `find` and `replace_with` are treated as having no pairs. Examples: a non-empty string, a function, or an array holding `null` or a non-string `find`. In the source, these can throw partway through the array or hand a non-string to the engine.
- `Campaigns.FindAndReplaceNumber`: the page body is the same for every pair. The text the engine changes for one pair is not threaded into the next, because the live tree is not modelled. Whether a pair throws does not depend on the body (`Campaigns.BodySearchFails`).
- `Campaigns.CampaignNumbers` does not state the exact contents of the numbers table after the whole listing. Each construction's contents are stated by `Campaigns.BuildNumber` and `Numbers.NewNumber`. Across the loop, the model carries only that every listed slot is active and that tables of other types are kept.
- `Campaigns.CampaignNumbers` walks the number bucket as it was when the loop began. The source's `for…in` walks the live table, which each `new RetreaverNumber` writes back to. A record whose primary key names a slot other than the one it is stored under adds or overwrites that slot, and whether the live walk then visits it is not modelled.
- `Js` strings and `Cookies.EncodeValue`: strings are sequences of Unicode scalar values, not UTF-16 code units. So a character outside the Basic Multilingual Plane is one character here. In the source, the regex at `src/base/Cookies.ts:99` hands each surrogate half to `encodeURIComponent` on its own, which throws a `URIError`: `Cookies.set('n', '\uD83D\uDE00')` throws. The model has no such failure.
- `Cookies.KeyValuePair`: `decode` is a total function, so the `URIError` that `decodeURIComponent` throws on a malformed escape (`src/base/Cookies.ts:136-139`) is not modelled. Such a cookie string, for example `a=%E0%A4%A`, makes `Cookies.get` throw in the source.
- `Cookies.CookieObjectFromString`, `Cookies.ParseFirstWins` and `Cookies.CookieJar.Get` model the cookie object as an association list without a prototype. So a cookie named after an `Object.prototype` member, such as `toString`, is stored here. In the source (`src/base/Cookies.ts:119`, `52`) it is skipped and `get` returns the inherited member.
- `Numbers.ExtractTagsFromString`, `Numbers.TagsFrom` and `RequestNumbers.GetUrlParts` store every key as an ordinary entry, `__proto__` included. In the source, `output[key] = v` on a `{}` literal (`src/Number.ts:166`, `retreaver-typescript/src/base/RequestNumber.ts:176`) with the key `__proto__` sets the object's prototype instead, and adds no own property.
- `FindReplaceText.Configure` has no "present but `undefined`" option. An option the caller sets explicitly to `undefined` is still an own property in the source, so the `hasOwnProperty` test (`src/vendor/FindAndReplaceDOMText.ts:101`) keeps the prose preset from filling it. Here such an option is `None`, and the preset fills it.
- `Requests.RunCallbacks` assumes every callback returns. In the source, a callback that throws ends the `for…of` loop (`src-ts/base/Request.ts:103-109`), and the later callbacks never run.
- `Campaigns.MatchingNumbers` compares `campaign_key` values structurally. The source's `===` (`src/Campaign.ts:309`) agrees with that for strings, numbers, booleans, `null` and `undefined`. For object- or array-valued keys it compares references, and two distinct equal-looking objects differ there.
- `FindReplaceText.PortionReplacement` treats any `wrap` string as a valid tag name. In the source `document.createElement` runs before the empty-text test (`src/vendor/FindAndReplaceDOMText.ts:393`), so an empty or invalid name throws even for an empty portion. In the single-node branch that happens after the preceding text node was inserted (`src/vendor/FindAndReplaceDOMText.ts:343-349`), leaving the document partly changed. The model has no such failure.
- `Js.Num` holds an unbounded integer, not a double. `NaN`, infinities, fractions and their string forms are not modelled. Every other number is truthy exactly when non-zero.
- `Numbers.TagRequest` states the path and payload of each tag operation. The post itself goes to a transport that is not modelled.
- The `window.Retreaver` namespace registration blocks are global wiring and are not modelled.
- The following files are not part of this model:
  - `src/index.ts`, `src/configure.ts` and `src-ts/Cache.ts`;
  - `retreaver-typescript/src/CallPixels.ts`;
  - `retreaver-typescript/src/base/Model.ts`, which delegates to a `Data` module that is not shown;
  - `retreaver-typescript/src/types/index.ts`;
  - `website/*` and the webpack configuration.

## Findings

| source | as written | input that shows it | evidently intended | confidence | as-written member | corrected member |
|---|---|---|---|---|---|---|
| src/Number.ts:176-211 | The ping (here and at src-ts/Number.ts:167-202) reads the store through static `getStore`/`connection` members the `Number` class does not have, so the store read falls back to `{}`. | A store holding one active number: `Numbers.PingAsWrittenSendsNothing` shows that no ping is built, and that the intended ping is not empty. | Ping every campaign that has active numbers, with their `ids` and `hashes`. | not executed | `Numbers.PingAsWritten` | `Numbers.PingRequests` |
| src-ts/base/Model.ts:80-86 | `set` looks for a setter named `set_number_matching_tags`, but the campaign's setter (src/Campaign.ts:326-335) is `setNumberMatchingTags`, so no tag value is ever validated. | `set('number_matching_tags', [])` stores the array: `Campaigns.TagsUnvalidatedAsWritten`. | Run the tag value through `setNumberMatchingTags`, refusing arrays and non-objects. | not executed | `Campaigns.CampaignSettersAsWritten` | `Campaigns.CampaignSetters` |
