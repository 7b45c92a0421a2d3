# tokeno: design-token export, modelled in Dafny

tokeno is a Figma plugin that exports the file's local variables as design
tokens. On a "create-tokens" message it walks every local variable
collection, builds one nested JSON object per collection, and posts the
array of trees to its UI. A variable named `color/primary/500` becomes
`tree.color.primary["500"]`. Its value for the collection's default mode is
stored there as one of:
- a primitive (number, string, boolean), kept as it is;
- a colour record, which becomes `#rrggbb`;
- a reference to another variable, which becomes the alias string
  `{Collection['seg1']['seg2']}`.

The model covers the whole of `code.ts`'s logic:

- `names.dfy` (`Names`): `split("/")` on variable names, with its inverse `Join`.
- `hex.dfy` (`Hex`): `rgbaToHex` and its inner `toHex`. The input channels are the
  integers that `Math.round(c * 255)` produces. `toString(16)` is modelled for every
  non-negative integer, and `ParseHex` is its inverse.
- `alias.dfy` (`Alias`): escaping of `"` in segments, the `['…']` path and the alias
  string, with a parser that reads an alias path back.
- `resolver.dfy` (`Resolver`): the host's records (variables, collections, raw values)
  and `valueParser`. The host's two lookups are the maps of `Host`.
- `json.dfy` (`Json`): JavaScript values and JavaScript truthiness.
- `tree.dfy` (`TokenTree`): `createCollectionModeJson`. The class `TokenCollection`
  holds the object the source mutates in place. Its method walks the path step by step
  and creates `{}` wherever a key is missing or falsy, as the source does. The method is
  proved equal to the recursive reference insertion `Put`, and `Put`'s properties are
  proved as lemmas.
- `walker.dfy` (`Walker`): the "create-tokens" handler. The class `TokenExporter` holds
  the module-level array `updatedTokenCollections`. Its method runs the two nested loops
  and is proved equal to `BuildAll`, one tree per collection in order.

These behaviours of `code.ts` are modelled as written:
- An intermediate key is replaced by `{}` when it is missing and also when it holds
  a falsy value (`undefined`, `false`, `0`, `""`). So a collection named `""`
  loses its seeded `name` to a variable named `name/x`.
- Empty segments are kept (`"a//b"` has three segments).
- The last segment overwrites whatever it finds, even an object built by earlier
  variables.
- A mode with no value stores `undefined`.
- With zero collections, nothing is added to the module-level array and it is posted
  as it stands: empty on the first run, the trees of earlier runs after that. There
  is no separate warning.
- Each run appends to the module-level array, so a second run posts the trees of
  both runs.
- A path that meets a truthy primitive before its last segment (`a/b/c` after `a/b`
  got a string) changes nothing in the tree. When the path goes one segment past the
  primitive, the only write left targets the primitive itself. Strict mode throws a
  TypeError there, and otherwise the write is silently dropped. When the path goes
  two or more segments past, the walk reads a property the primitive lacks and gets
  `undefined`. The next write through it throws a TypeError in either mode. A
  primitive that has the property, such as a string's `length`, only moves the walk
  to another primitive, with the same outcome. The walker's `try` catches every such
  TypeError. The model's `Blocked` predicate names this case: the tree is unchanged
  and the method returns `None`.
- The alias escapes `"` but not the `'` that delimits segments. So the names
  `x']['y` and `x/y` get the same alias (`Alias.AliasQuoteCollision`). For names
  with no `'`, the alias determines the name (`Alias.AliasStringInjective`).

## Model

| member | source | states |
|---|---|---|
| Names.Split | code.ts:17 | `split("/")` yields at least one segment and no segment contains `/` |
| Names.JoinSplit | code.ts:17 | joining the segments with `/` gives the variable name back, so splitting loses nothing |
| Names.SplitJoin | code.ts:17 | splitting a `/`-joined list of slash-free segments gives the same segments |
| Names.SplitSlashFree | code.ts:17 | a name without `/` is a single segment |
| Hex.ToString16 | code.ts:87 | `toString(16)` yields lower-case hex digits with no leading zero; it is one digit exactly for values below 16 |
| Hex.ToHex | code.ts:86-89 | at least two lower-case digits; the first is a padding `0` exactly when the value is below 16; a channel below 256 gives exactly two (`ToHexChannel` adds their value) |
| Hex.RgbaToHex | code.ts:79-91 | seven characters starting with `#` (`RgbaToHexFormat` gives the digits and their values) |
| Hex.DigitValue | code.ts:87 | reading a hex digit gives the value whose digit it is |
| Hex.ParseToString16 | code.ts:87 | reading back the digits of `toString(16)` gives the number |
| Hex.ToHexChannel | code.ts:86-89 | `toHex` of a channel 0..255 is exactly two lower-case hex digits that read back as the channel (zero-padding) |
| Hex.RgbaToHexFormat | code.ts:79-91 | `rgbaToHex` is `#` plus six lower-case hex digits; digits 1-2, 3-4 and 5-6 read back as red, green and blue |
| Hex.RgbaToHexInjective | code.ts:85-90 | two colours with the same hex string agree on red, green and blue |
| Hex.RgbaToHexIgnoresAlpha | code.ts:85 | changing alpha never changes the result |
| Hex.RgbaToHexExtremes | code.ts:85-90 | black gives `#000000` and white gives `#ffffff`, for any alpha |
| Alias.Escape | code.ts:62 | escaping never shortens a segment and adds or removes no single quote |
| Alias.EscapeQuotes | code.ts:62 | every `"` in the escaped segment has a backslash right before it, and the segment grows by exactly one character per `"` |
| Alias.AliasPath | code.ts:60-63 | at least four characters per segment; empty exactly when there are no segments; otherwise it opens with `['` and closes with `']` |
| Alias.AliasString | code.ts:60-64 | `{`, the collection's name, then a path opening with `['` and the closing `']}`; at least six characters beyond the name |
| Alias.EscapePlain | code.ts:62 | a segment with no `"` is left unchanged |
| Alias.UnescapeEscape | code.ts:62 | turning each `\"` back into `"` recovers the segment, so the escaping loses nothing |
| Alias.ParseAliasPathRoundTrip | code.ts:60-63 | for segments with no `'`, the `['…']` path parses back to exactly those segments |
| Alias.AliasStringInjective | code.ts:60-64 | within one collection, two names with no `'` have equal aliases only if the names are equal |
| Alias.AliasQuoteCollision | code.ts:60-64 | `'` is not escaped, so the names `a']['b` and `a/b` (different names) get the same alias |
| Alias.AliasExampleTwo | code.ts:60-64 | a two-segment name `a/b` splits into `[a, b]` and its path is `['a']['b']` |
| Alias.AliasExample | code.ts:60-64 | a reference to `a/b` in collection `Core` reads `{Core['a']['b']}` |
| Resolver.Primitive | code.ts:19-22 | a boolean, number or string raw value is stored unchanged, as the same JavaScript boolean, number or string |
| Resolver.ValueParser | code.ts:47-76 | a reference gives `#000000` exactly when the variable lookup or its collection's lookup fails, and otherwise a string in braces; a colour gives seven characters starting with `#` |
| Resolver.ReferenceFallback | code.ts:52-75 | a reference gives `#000000` exactly when the variable lookup or its collection's lookup fails; otherwise it gives an alias starting with `{` |
| Resolver.ReferenceShape | code.ts:52-64 | any resolved reference is `{`, the owning collection's name, the `['…']` path of the referenced variable's `/`-segments, and `}` |
| Resolver.ReferenceAlias | code.ts:52-64 | when the referenced variable's name has no `'`, the reference starts with `{` and the collection's name, ends with `}`, and the part between parses back to the variable's own segments |
| Resolver.ColorHex | code.ts:71-74 | a colour resolves to `#rrggbb`, each channel recoverable from its two digits |
| TokenTree.StoredValue | code.ts:19-29 | no value for the mode gives `undefined`; a primitive is stored unchanged; a colour or reference is replaced by `valueParser`'s string |
| TokenTree.Put | code.ts:32-41 | when the path is blocked by a primitive, the insertion leaves the tree unchanged |
| TokenTree.Blocked | code.ts:31-41 | on a blocked path there is no value to read at the path, and no object to walk into at its parent path |
| TokenTree.PutTopFrame | code.ts:32-41 | at the root, only the first segment's key may be added or changed; every other key keeps its value |
| TokenTree.PutReaches | code.ts:32-41 | unless blocked, after the insertion the value is found by descending the first k-1 segments and reading the last; a single segment is set directly on the root |
| TokenTree.PutFrame | code.ts:32-41 | every entry whose path parts from the inserted path, at any depth and including the seeded `name`, is unchanged (so `a/b` survives `a/c`) |
| TokenTree.PutDescend | code.ts:32-38 | below an object already on the path, the insertion acts on that object alone with the rest of the path |
| TokenTree.PutReusesObjects | code.ts:35-38 | an existing object on the path is reused, not replaced: all its keys except the next segment keep their values |
| TokenTree.PutCreatesObject | code.ts:35-36 | a missing or falsy key on the path becomes a new object holding only the rest of the path |
| TokenTree.PutKeepsUnblocked | code.ts:32-41 | inserting a path never blocks a parting path that was not blocked |
| TokenTree.CreateStep | code.ts:35-36 | creating `{}` for a missing or falsy key mid-walk does not change what the insertion produces |
| TokenTree.CreateStepUnblocked | code.ts:35-36 | where the walk must create `{}`, the path is not blocked before or after the creation |
| TokenTree.CreateAdvance | code.ts:35-38 | after creating `{}` at a step, the walk stands in that empty object, and neither the final tree nor blocking changes |
| TokenTree.DescendAdvance | code.ts:38 | walking into an existing object moves the walk one segment down, onto that object |
| TokenTree.FinalStep | code.ts:41 | once the last parent is reached, the insertion is the single assignment to the last segment |
| TokenTree.BlockStep | code.ts:35-38 | meeting a truthy primitive before the last segment means the insertion is blocked |
| TokenTree.TokenCollection.constructor | code.ts:108 | a new tree is `{name: collection.name}` |
| TokenTree.TokenCollection.CreateCollectionModeJson | code.ts:11-44 | the in-place walk leaves the tree equal to `Put` of the old tree. It returns the innermost parent, which holds the stored value under the last segment. The result is None exactly when the path is blocked |
| Walker.KeysOf | code.ts:17 | a found variable's path has at least one segment |
| Walker.InsertId | code.ts:112-128 | one id: a found variable's first segment becomes a top-level key and no key is removed; an id the host cannot find leaves the tree as it was |
| Walker.InsertIds | code.ts:110-129 | no top-level key is removed, and the first segment of every found variable's path is a top-level key of the result |
| Walker.BuildTree | code.ts:106-131 | the finished tree has a `name` key and a top-level key for the first segment of every found variable's path |
| Walker.BuildAll | code.ts:106-132 | one tree per collection, the j-th being the tree of the j-th collection |
| Walker.Found | code.ts:113-117 | an id is kept exactly when it is in the collection's list and the host finds it |
| Walker.FoundCounts | code.ts:113-117 | each found id is kept as often as it occurs in the list; an id the host cannot find is never kept |
| Walker.SkipsMissing | code.ts:112-128 | ids whose lookup fails are skipped; the tree is the one built from the found ids alone, in order |
| Walker.KeepsName | code.ts:108-123 | the seeded `name` survives when no found variable's path starts with `name` |
| Walker.InsertIdsReach | code.ts:110-129 | when found paths part pairwise and none starts blocked, every found variable's value is readable at its path in the finished tree |
| Walker.UnblockedAfter | code.ts:110-129 | inserting earlier, parting paths never blocks a later one |
| Walker.BuildTreeComplete | code.ts:106-131 | a collection whose paths part pairwise and avoid `name` yields a tree holding its name and every found variable's value at its path |
| Walker.TokenExporter.constructor | code.ts:8 | the module-level array starts empty |
| Walker.TokenExporter.CreateTokens | code.ts:100-142 | when enumeration succeeds, the array becomes the old array plus `BuildAll` of the collections, and all of it is posted. When enumeration fails, nothing changes and nothing is posted |

## Left out

- UI plumbing (`figma.showUI`, `figma.ui.resize`, the `onmessage` dispatch and `postMessage`, code.ts:94-99, 135-138): `CreateTokens` returns the data it would post.
- `async`/`await`: every lookup completes before the next step, so lookups are synchronous map reads.
- `try`/`catch` and `console.error`: a lookup that throws is a lookup that finds nothing. Logging is not modelled.
- `Math.round(c * 255)` on floating point: channels are taken as the rounded integers 0..255.
- Numbers are `real`, so `NaN` (falsy in JavaScript) is not represented.
- Keys that JavaScript resolves through `Object.prototype` (`constructor`, `__proto__`, `toString`, …) are treated as ordinary own keys.
- Property order of JavaScript objects is not modelled, because objects are maps.
- Aliasing is not modelled. The trees built in the loop are values. The parent returned by `createCollectionModeJson` is a snapshot, not a live reference into the tree.
- TokenTree.TokenCollection.CreateCollectionModeJson: on a blocked path it returns None. The source returns the primitive one segment past it in sloppy mode, and throws a TypeError in strict mode or two or more segments past it.
- The per-mode export ("create-variables") and rounding of numeric values are not in code.ts and are not part of this model.
