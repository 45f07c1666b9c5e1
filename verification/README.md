# Noun phrase extraction over a constituency parse

This project models `NounPhrases`, a small extractor that turns a sentence into the set of its
"useful" noun phrases. The extractor parses the sentence into constituency trees. It then walks
every tree in pre-order and collects the surface text of every node labelled exactly `NP`,
unless its filter chain rejects that node.

A filter looks only at a node's *tag path*. The tag path is the part-of-speech tags of the tag
nodes below the node, lower-cased and joined with single spaces. For "the author" it is
`"dt nn"`. A filter rejects the node when its regular expression matches the whole tag path
(Java's `String.matches`).

The chain is an OR: a node is rejected as soon as one filter matches. Rejection is local: the
walk always goes on into the children of a rejected node.

The model has eight modules:

- `Text`: ASCII lower-casing, plus `Join` with its inverse `Split`.
- `Trees`: the parse tree, its tag nodes and its set of nodes.
- `TagPaths`: the tag path, and the loop that builds it.
- `Patterns`: one hand-written recogniser per regular expression, with exact Java semantics.
- `Filters`: the seven filters. The module restates each pattern in terms of the tags the path
  was joined from.
- `Extraction`: the filter chain, the walk and `get`.
- `Scenarios`: the two sentences that `main` runs, with hand-built trees, and one tree in which
  an accepted phrase sits inside a rejected one.
- `Wrappers`: `Option`.

Some facts about the patterns follow from the lemmas:

- `rejectNone` (`[^.]*`) matches every path that contains no `.`. With it, the chain rejects
  nearly every noun phrase.
- `rejectAll` (`[.]*`) matches only paths made of `.` characters, the empty path included.
- `rejectConsecutive` (`(nn|nnp){2,}`) contains no space. So it can only match a path of one tag
  (`ConsecutiveOnTags`), and never two tags in a row.
- `(\w{2,4} ){4,}.*` needs five or more tags, the first four of two to four word characters
  each. A path of exactly four tags never matches (`LongOnTags`).

`rejectNone`, `rejectAll`, `rejectConsecutive` and `rejectContainAnyProperNoun` are not in the default chain; `rejectLong` is. The model keeps what the code does.

If loading the parser model fails, `get` prints the stack trace and returns the empty set. So a
failed parse cannot be told apart from a sentence with no accepted noun phrase. It would be
better design to surface the failure. The model follows the code: `Extraction.Get` returns `{}`
when the parser returns `None`.

## Model

| member | source | states |
|---|---|---|
| Text.ToLower | src/main/java/NounPhrases.java:60 | the result is never an upper-case ASCII letter; `A`–`Z` map to `a`–`z` at the same offset; every other character is unchanged |
| Text.LowerCase | src/main/java/NounPhrases.java:60 | lower-casing keeps the length of a tag |
| Text.LowerCaseKeeps | src/main/java/NounPhrases.java:60 | lower-casing keeps every character that is not upper-case ASCII, leaves no upper-case ASCII, and is idempotent |
| Text.Join | src/main/java/NounPhrases.java:62 | `String.join(" ", ...)`: the words separated by single spaces; what it means is proved in `SplitJoin`, `JoinSplit`, `JoinSpaces` and `JoinInjective` below |
| Text.Split | src/main/java/NounPhrases.java:62 | splitting at spaces gives at least one word |
| Text.JoinSpaces | src/main/java/NounPhrases.java:62 | joining n space-free words puts exactly n-1 spaces in the result (none for no words) |
| Text.JoinHasSpace | src/main/java/NounPhrases.java:62 | joining two or more words gives a string with a space |
| Text.SplitJoin | src/main/java/NounPhrases.java:62 | splitting the join of one or more space-free words gives back the words |
| Text.JoinSplit | src/main/java/NounPhrases.java:62 | joining the split of any string gives back the string |
| Text.JoinInjective | src/main/java/NounPhrases.java:62 | two non-empty lists of space-free words with the same join are equal |
| Trees.TagNodes | src/main/java/NounPhrases.java:59 | every node the tag-node search returns is childless; that it returns all of them is `TagNodesExactly` |
| Trees.TagNodesExactly | src/main/java/NounPhrases.java:59 | a node is returned exactly when it is a childless node of one of the subtrees below the node's children |
| Trees.TagNodesAtExactly | src/main/java/NounPhrases.java:59 | one child contributes exactly the childless nodes of its own subtree, itself included |
| Trees.TagNodesOfExactly | src/main/java/NounPhrases.java:59 | over a list of children: exactly the childless nodes of their subtrees |
| Trees.TagNodesOfAppend | src/main/java/NounPhrases.java:59 | the tag nodes of consecutive children come in their left-to-right order |
| Trees.NodesOfMembers | src/main/java/NounPhrases.java:121-123 | a node is in a list of trees exactly when it is in one of them |
| Trees.NodesTransitive | src/main/java/NounPhrases.java:121-123 | a node of a subtree is a node of the whole tree |
| TagPaths.TagPath | src/main/java/NounPhrases.java:57-63 | the tag path as a value; what it determines is proved in `TagPathSpaces`, `TagPathDeterminesTags` and `TagPathSplits` |
| TagPaths.LowerTags | src/main/java/NounPhrases.java:58-61 | one entry per tag node, in order, each that node's type lower-cased |
| TagPaths.PosAsString | src/main/java/NounPhrases.java:57-63 | the loop returns the tag path: the lower-cased tags joined with single spaces |
| TagPaths.LowerCasePlain | src/main/java/NounPhrases.java:60 | lower-casing a tag without spaces or line terminators keeps it so |
| TagPaths.LowerTagsPlain | src/main/java/NounPhrases.java:60 | lower-casing tags without spaces or line terminators keeps them so |
| TagPaths.TagPathSpaces | src/main/java/NounPhrases.java:57-63 | a tag path over n plain tags has n-1 spaces, and is empty when there are no tag nodes |
| TagPaths.TagPathDeterminesTags | src/main/java/NounPhrases.java:57-63 | two nodes with plain tags have the same tag path exactly when their lower-cased tag lists are equal |
| TagPaths.TagPathSplits | src/main/java/NounPhrases.java:57-63 | splitting a tag path at spaces gives back the lower-cased tags |
| Patterns.StarAll | src/main/java/NounPhrases.java:24 | a starred character class matches exactly the strings all of whose characters are in the class |
| Patterns.MatchesRejectNone | src/main/java/NounPhrases.java:23-25 | `[^.]*` under `matches`; `RejectNoneExactly` proves it accepts exactly the strings without `.` |
| Patterns.RejectNoneExactly | src/main/java/NounPhrases.java:23-25 | `[^.]*` matches exactly the strings with no `.` |
| Patterns.MatchesRejectAll | src/main/java/NounPhrases.java:27-29 | `[.]*` under `matches`; `RejectAllExactly` proves it accepts exactly the all-`.` strings |
| Patterns.RejectAllExactly | src/main/java/NounPhrases.java:27-29 | `[.]*` matches exactly the strings made only of `.`, the empty string included |
| Patterns.MatchesDetNoun | src/main/java/NounPhrases.java:31-33 | `dt nn([^p]|$).*` under `matches`; its meaning on tag paths is `Filters.DetNounOnTags`, with examples in `DetNounExamples` |
| Patterns.DetNounExamples | src/main/java/NounPhrases.java:31-33 | the determiner-noun pattern matches "dt nn", "dt nns", "dt nn nn"; not "dt nnp", "dt nnps", "nn", "dt jj nn" |
| Patterns.MatchesSingleNounOrProper | src/main/java/NounPhrases.java:35-37 | `(nn|nnp)` under `matches`; on tag paths `Filters.SingleNounOrProperOnTags` |
| Patterns.SingleNounExamples | src/main/java/NounPhrases.java:35-37 | the single-noun pattern matches "nn" and "nnp" only; not "nns" or "dt nn" |
| Patterns.MatchesContainsProperNoun | src/main/java/NounPhrases.java:39-41 | `.*nnp.*` read with backtracking; `ContainsProperNounExactly` proves it accepts exactly the terminator-free strings containing "nnp" |
| Patterns.ContainsProperNounSound | src/main/java/NounPhrases.java:39-41 | a backtracking match of `.*nnp.*` has no line terminator and an "nnp" somewhere |
| Patterns.ContainsProperNounComplete | src/main/java/NounPhrases.java:39-41 | a string without line terminators that has "nnp" at some index is matched |
| Patterns.ContainsProperNounExactly | src/main/java/NounPhrases.java:39-41 | `.*nnp.*` matches exactly the terminator-free strings that contain "nnp" |
| Patterns.ContainsProperNounExamples | src/main/java/NounPhrases.java:39-41 | matches "dt nnp" and "nnps"; not "dt nn" or "nn p" |
| Patterns.MatchesConsecutive | src/main/java/NounPhrases.java:43-45 | `(nn|nnp){2,}` under `matches`; `ConsecutiveExactly` proves it accepts exactly concatenations of two or more "nn"/"nnp" |
| Patterns.NounTokens | src/main/java/NounPhrases.java:43-45 | a tokenisation it returns is a list of "nn"/"nnp" words whose concatenation is the input |
| Patterns.NounTokensComplete | src/main/java/NounPhrases.java:43-45 | every concatenation of "nn"/"nnp" words is tokenised back into those words |
| Patterns.ConsecutiveExactly | src/main/java/NounPhrases.java:43-45 | the consecutive-noun pattern matches exactly the concatenations of two or more "nn"/"nnp" words |
| Patterns.NounWordsNoSpace | src/main/java/NounPhrases.java:43-45 | such a concatenation has no space |
| Patterns.ConsecutiveNoSpace | src/main/java/NounPhrases.java:43-45 | a string with a space is never matched |
| Patterns.ConsecutivePair | src/main/java/NounPhrases.java:43-45 | any two of "nn"/"nnp" written together are matched |
| Patterns.ConsecutiveExamples | src/main/java/NounPhrases.java:43-45 | matches "nnnn", "nnpnn" and "nnnnp" |
| Patterns.ConsecutiveCounterExamples | src/main/java/NounPhrases.java:43-45 | does not match "nn", "nnp" or "nn nn" |
| Patterns.MatchesLong | src/main/java/NounPhrases.java:47-49 | `(\w{2,4} ){4,}.*` under `matches`, with the backtracking of the greedy group; on tag paths `Filters.LongOnTags` |
| Patterns.WordRun | src/main/java/NounPhrases.java:48 | the longest prefix of `\w` characters: all of it are word characters and the next one is not |
| Patterns.GroupsThenAnyZero | src/main/java/NounPhrases.java:48 | after the required groups, the rest matches exactly when it has no line terminator |
| Patterns.GroupStep | src/main/java/NounPhrases.java:48 | a valid group followed by a space consumes one required repetition |
| Patterns.FirstGroup | src/main/java/NounPhrases.java:48 | a match with groups still required starts with a word run of two to four characters followed by a space; the suffix after that space matches with one group fewer and holds at least one space fewer |
| Patterns.GroupsSpaces | src/main/java/NounPhrases.java:48 | a match with k required groups has at least k spaces |
| Patterns.LongNeedsFourSpaces | src/main/java/NounPhrases.java:47-49 | `(\w{2,4} ){4,}.*` only matches strings with at least four spaces |
| Patterns.LongFromWords | src/main/java/NounPhrases.java:47-49 | four words of two to four word characters, each followed by a space, then any terminator-free rest: matched |
| Patterns.LongExampleFourGroups | src/main/java/NounPhrases.java:47-49 | "dt jj nn nn " (trailing space) is matched |
| Patterns.LongExampleFourTags | src/main/java/NounPhrases.java:47-49 | "dt jj nn nn" is not matched |
| Filters.Matches | src/main/java/NounPhrases.java:51-55 | `path.matches(regex)` for each of the seven filters, decided by that filter's recogniser |
| Filters.FilterRejects | src/main/java/NounPhrases.java:51-55 | a filter rejects a node exactly when its pattern matches the node's whole tag path |
| Filters.JoinChar | src/main/java/NounPhrases.java:62 | a non-space character occurs in a join exactly when it occurs in one of the words |
| Filters.JoinPlainDotStar | src/main/java/NounPhrases.java:62 | the join of plain tags has no line terminator |
| Filters.RejectNoneOnTags | src/main/java/NounPhrases.java:23-25 | `rejectNone` rejects exactly the paths none of whose tags contains `.` |
| Filters.RejectAllOnTags | src/main/java/NounPhrases.java:27-29 | `rejectAll` rejects exactly the paths made only of `.` |
| Filters.DetNounFirstTag | src/main/java/NounPhrases.java:31-33 | with more tags following, the path matches exactly when the first tag is "dt" and the rest starts with an "nn" not followed by "p" |
| Filters.NnRestOnTags | src/main/java/NounPhrases.java:31-33 | the rest after "dt " qualifies exactly when its first tag starts with "nn" and is "nn" or has no "p" in third place |
| Filters.DetNounOnTags | src/main/java/NounPhrases.java:31-33 | `rejectDetNoun` rejects exactly the paths of two or more tags: "dt", then a tag starting "nn" whose third letter, if any, is not "p" |
| Filters.SingleNounOrProperOnTags | src/main/java/NounPhrases.java:35-37 | `rejectSingleNounOrProper` rejects exactly the paths ["nn"] and ["nnp"] |
| Filters.ContainAnyProperNounOnTags | src/main/java/NounPhrases.java:39-41 | `rejectContainAnyProperNoun` rejects exactly the paths containing "nnp" (also inside a longer tag such as "nnps") |
| Filters.ConsecutiveOnTags | src/main/java/NounPhrases.java:43-45 | `rejectConsecutive` can only reject a path of exactly one tag |
| Filters.GroupsOnTags | src/main/java/NounPhrases.java:48 | k required groups match a join of plain tags exactly when there are more than k tags and the first k have two to four word characters |
| Filters.LongOnTags | src/main/java/NounPhrases.java:47-49 | `rejectLong` rejects exactly the paths of five or more tags whose first four have two to four word characters |
| Filters.LongExampleSixTags | src/main/java/NounPhrases.java:47-49 | the path of the six tags "dt jj nn nn nnp nn" is rejected as long |
| Extraction.Rejected | src/main/java/NounPhrases.java:127-134 | the chain as an OR tried in order; `RejectedIff` states its meaning |
| Extraction.RejectedIff | src/main/java/NounPhrases.java:127-134 | the chain rejects a path exactly when one of its filters matches it; an empty chain rejects nothing |
| Extraction.RejectedWiden | src/main/java/NounPhrases.java:127-134 | a chain whose filters all occur in a second chain rejects only paths the second rejects |
| Extraction.IsRejected | src/main/java/NounPhrases.java:127-134 | the early-return loop answers true exactly when some filter matches the node's tag path |
| Extraction.ExtractNounPhrases | src/main/java/NounPhrases.java:114-125 | the walk returns the phrases of the tree: this node's text if it is an accepted "NP", and the union over all children |
| Extraction.Get | src/main/java/NounPhrases.java:87-111 | on a parser failure the set is empty; otherwise it is the union of the phrases of every top-level parse |
| Extraction.Phrases | src/main/java/NounPhrases.java:114-125 | the result of the walk as a value; `PhrasesAreAcceptedTexts` and `PhraseMembership` state what it holds |
| Extraction.PhrasesOf | src/main/java/NounPhrases.java:103-105 | the union over several trees; `PhrasesOfMembership` states what it holds |
| Extraction.AcceptedTextsUnion | src/main/java/NounPhrases.java:104 | the texts of the accepted nodes of a union are the union of the texts |
| Extraction.PhrasesAreAcceptedTexts | src/main/java/NounPhrases.java:114-125 | the walk returns exactly the texts of the accepted nodes of the tree, whatever their ancestors |
| Extraction.PhrasesOfAreAcceptedTexts | src/main/java/NounPhrases.java:103-105 | over several trees: exactly the texts of the accepted nodes of any of them |
| Extraction.PhraseMembership | src/main/java/NounPhrases.java:114-134 | a string is extracted exactly when some node is labelled "NP", has that text, and no filter matches its tag path |
| Extraction.NestedPhraseKept | src/main/java/NounPhrases.java:116-123 | an accepted "NP" below any node, a rejected one included, is still extracted |
| Extraction.PhrasesOfMembership | src/main/java/NounPhrases.java:103-105 | a string is in the result for several parses exactly when it is in the result for one of them |
| Extraction.MoreFiltersFewerPhrases | src/main/java/NounPhrases.java:127-134 | a chain holding every filter of another extracts a subset of what the other extracts |
| Extraction.AppendFilterShrinks | src/main/java/NounPhrases.java:127-134 | adding a filter to the chain can only shrink the result |
| Extraction.ChainOrderIrrelevant | src/main/java/NounPhrases.java:127-134 | two chains with the same filters, in any order and with any repetition, extract the same phrases |
| Extraction.EmptyChainKeepsEveryNounPhrase | src/main/java/NounPhrases.java:114-125 | with no filter, the result is the text of every "NP" node |
| Extraction.WithDefaultFilters | src/main/java/NounPhrases.java:75-85 | the one-argument constructor installs `rejectDetNoun`, `rejectSingleNounOrProper` and `rejectLong`, in that order; what it keeps is `DefaultPhraseMembership` |
| Extraction.DefaultRejectsTags | src/main/java/NounPhrases.java:75-85 | the three tag shapes the default chain rejects |
| Extraction.DefaultFiltersOnTags | src/main/java/NounPhrases.java:75-85 | the default chain rejects exactly: "dt" then a common noun tag, a lone "nn" or "nnp", or five or more tags whose first four have two to four word characters |
| Extraction.DefaultPhraseMembership | src/main/java/NounPhrases.java:75-85 | with the one-argument constructor, a tree with plain tags yields exactly the texts of its "NP" nodes whose lower-cased tags are none of the three rejected shapes |
| Scenarios.TwoTagNounPhrase | src/main/java/NounPhrases.java:114-125 | an "NP" over two tag nodes has their two lower-cased tags as its path, and yields its own text exactly when the default chain does not reject that path |
| Scenarios.OneTagNounPhrase | src/main/java/NounPhrases.java:114-125 | the same for an "NP" over one tag node |
| Scenarios.RejectedOverTwo | src/main/java/NounPhrases.java:116-123 | a rejected "NP" with two children yields exactly what its children yield |
| Scenarios.TheCallKept | src/main/java/NounPhrases.java:75-85 | "The Call" (tag path "dt nnp") passes the default chain |
| Scenarios.TheWildKept | src/main/java/NounPhrases.java:75-85 | "the Wild" (tag path "dt nnp") passes the default chain |
| Scenarios.TheCallOfTheWildRejected | src/main/java/NounPhrases.java:47-49 | "The Call of the Wild" ("dt nnp in dt nnp") is rejected as long, but the two phrases inside it are kept |
| Scenarios.TheAuthorRejected | src/main/java/NounPhrases.java:31-33 | "the author" ("dt nn") is rejected |
| Scenarios.AuthorOfRejected | src/main/java/NounPhrases.java:31-33 | "the author of The Call of the Wild" is rejected; "The Call" and "the Wild" below it are kept |
| Scenarios.QuestionPhrases | src/main/java/NounPhrases.java:137-140 | the first sentence yields {"The Call", "the Wild"} |
| Scenarios.ItKept | src/main/java/NounPhrases.java:75-85 | "It" (tag path "prp") passes the default chain |
| Scenarios.TimeRejected | src/main/java/NounPhrases.java:35-37 | "time" ("nn") is rejected as a single noun |
| Scenarios.TheDoctorRejected | src/main/java/NounPhrases.java:31-33 | "the doctor" ("dt nn") is rejected |
| Scenarios.StatementPhrases | src/main/java/NounPhrases.java:142-146 | the second sentence yields {"It"} |
| Scenarios.InnerPhraseSurvives | src/main/java/NounPhrases.java:116-123 | "the house of John Smith" is rejected, and "John Smith" inside it is still the one phrase extracted |
| Scenarios.QuestionExample | src/main/java/NounPhrases.java:137-140 | `get` on the first sentence, with a parser that returns its tree, returns {"The Call", "the Wild"} |
| Scenarios.StatementExample | src/main/java/NounPhrases.java:142-146 | `get` on the second sentence returns {"It"} |
| Scenarios.FailedParseExample | src/main/java/NounPhrases.java:106-110 | `get` returns the empty set when loading the parser model fails |

## Left out

- Loading the parser model from `res/en-parser-chunking.bin` and running the OpenNLP parser (lines 89-101) are not modelled. The parser is a parameter of `Extraction.Get`. It returns either the top-level parses (`Some`) or the `IOException` (`None`).
- Printing the stack trace on that exception, and printing in `main`, are left out because they are console output.
- `main` is modelled by `Scenarios.QuestionExample` and `Scenarios.StatementExample` over hand-built trees. What the real OpenNLP model returns for those sentences is not part of this model.
- OpenNLP's `Parse` class is not part of this model. A node is reduced to its type, its children and its rendered text:
  - `Parse.toString()` is the `text` field.
  - OpenNLP's token nodes are not modelled. In OpenNLP a part-of-speech node has exactly one child, a token node of type `TK` that holds the word. Here the token level is folded away: a tag node is a childless node whose category is the part-of-speech tag and whose text is the word (`Scenarios.Tag`). No token node is labelled "NP", so the walk's result is the same either way.
  - `getTagNodes()` is `Trees.TagNodes`. In OpenNLP it returns the part-of-speech nodes above the tokens. Here it returns the childless nodes below a node, left to right, with the search starting at the node's children (`Trees.TagNodesExactly`, `Trees.TagNodesOfAppend`).
- `HashSet` iteration order is not modelled: results are mathematical sets.
- Java's general regular-expression engine is not modelled. Each of the seven fixed patterns has its own recogniser, with `matches` anchored at both ends, `.` excluding the line terminators (`\n`, `\r`, U+0085, U+2028, U+2029), and `\w` being `[A-Za-z0-9_]`.
- Text.ToLower: maps only ASCII `A`–`Z` to `a`–`z`. `String.toLowerCase()` uses the default locale and also lower-cases non-ASCII letters. The model assumes a locale in which ASCII letters lower-case to ASCII letters. In a Turkish or Azerbaijani locale (tr, az) `I` lower-cases to the dotless `ı` (U+0131), which is not a `\w` character. There `"IN"` becomes `"ın"`, so `"dt nnp ın dt nnp"` is not rejected as long, and the first sentence of `main` would also yield "The Call of the Wild". The model does not capture that.
- Text.LowerCase: same ASCII restriction as `Text.ToLower`.
