# earleyx core, modelled in Dafny

earleyx is an Earley parser for probabilistic context-free grammars. It
computes prefix probabilities, surprisal and other word-by-word measures,
and decodes parses. This project models the bookkeeping around the parser
and proves properties of it:

- how grammars are read and normalised;
- how rules and edges are represented and numbered;
- the tries and the lexicon;
- the chart stores and the per-sentence state;
- the decoders' segmentation and tag choice;
- the small utilities around them.

The modules follow the source files:

| module | file | models |
|---|---|---|
| `Wrappers` | wrappers.dfy | `Option`, `Result` and small set helpers |
| `Text` | text.dfy | ASCII character classes, Python `re.split('\s+')`, Java `split("\\s+")`, joins |
| `Indexing` | indexing.dfy | `edu.stanford.nlp.util.HashIndex` as a sequence of distinct items |
| `Rules` | rules.dfy | `Rule`, `FragmentRule`, `TerminalRule`, `TagRule`, `MotherRule`, `Edge`, `ProbRule`, `BiasProbRule` as values |
| `RuleTable` | ruleset.dfy | `RuleSet`: the table as a value, and a class whose methods move it |
| `RuleLine` | rule_line.dfy | the `TAG->[RHS] : NUM` and biased line patterns of `util.RuleFile`, and the trimming before the match |
| `Lt2Grammar` | lt2grammar.dfy | `process_files`: rewriting, the probability table, uniform probabilities, output order |
| `GrammarReader` | grammar_reader.dfy | `util.RuleFile`: the `TAG->[RHS] : p` reader and its maps |
| `LegacyReader` | legacy_reader.dfy | `parser.RuleFile`: the older reader with unknown words and pseudo tags |
| `EdgeSpaces` | edgespace.dfy | `EdgeSpace` with its two to-edge policies |
| `StateSpaces` | statespace.dfy | the older `StateSpace` |
| `Tries`, `ValueTries`, `SurprisalTries` | trie.dfy, value_trie.dfy, surprisal_trie.dfy | the generic trie, `util.Trie` and `TrieSurprisal` |
| `Signatures`, `SmoothLexicons` | signature.dfy, lexicon.dfy | `SmoothLexicon`: unknown-word signatures, training and smoothing |
| `MeasureTables` | measures.dfy | `Measures` |
| `EarleyParsers` | earley.dfy | `EarleyParser`: cell numbering, `sentInit`, edge records, backtrack entries, scaling |
| `SparseCharts`, `DenseCharts` | sparse.dfy, dense.dfy | the two chart stores |
| `MarginalDecoders` | marginal.dfy | `MarginalDecoder`: marginal maps, `argmax`, social-cue segmentation |
| `TreeBanks` | treebank.dfy | `TreeBankFile`'s tree rewrites |
| `Utilities` | utilities.dfy | `util.Util` / `utility.Utility` |
| `PosFiles` | posfile.dfy | `Main.processPOSFile` |
| `ParserGenerators` | generator.dfy | `EarleyParserGenerator.preInit` and the probability check of `init` |

Conventions used throughout:

- **Java `assert`.** Where it guards the caller, it becomes a `requires`. Where it checks data read from a file, it becomes a failure result (`Fail`), as if assertions were enabled. Where it only checks the code's own arithmetic, it is not modelled, as with assertions disabled; "## Left out" names each such place.
- **Aborts.** `System.exit(1)` and thrown exceptions become failure results.
- **Scores.** Scores are `real` under the probability operator: `zero` is 0, `one` is 1, `add` is +, `multiply` is *.
- **Foreign numerics are parameters.** `Double.parseDouble`, `Math.log` and `ArrayMath.logSum` are passed in as function parameters.
- **Files are lines.** A reader becomes the sequence of its lines, and a writer becomes the text it receives.
- **State.** Objects the source updates in place are classes with `modifies` clauses. Their methods are proved against specification functions, and the properties are proved about those functions.

## Model

| member | source | states |
|---|---|---|
| Text.UpperCase | code/lt2grammar.py:99 | `str.upper()` on ASCII: same length, each lower-case letter raised, every other character kept |
| Text.LeadingSpaces | code/lt2grammar.py:54 | the length of the leading whitespace run |
| Text.SplitOnSpaceRuns | code/lt2grammar.py:59 | `re.split('\s+', s)`: at least one piece, none holding whitespace |
| Text.JavaSplitOnSpaceRuns | src/parser/EarleyParser.java:365 | `split("\\s+")`: the same pieces without trailing empty ones, none holding whitespace |
| Text.DropTrailingEmpty | src/parser/EarleyParser.java:365 | a prefix of the pieces that drops only empty ones and ends in a non-empty one |
| Text.SplitOnChar | src/parser/RuleFile.java:114 | `split(" ")` before dropping: at least one piece, none holding the separator |
| Text.JavaSplitOnChar | src/util/RuleFile.java:135 | `rhs.split(" ")`: pieces holding no separator |
| Text.SplitJoinRoundTrip | code/lt2grammar.py:59 | splitting tokens joined by single spaces gives the tokens back |
| Text.JavaSplitJoinRoundTrip | src/parser/EarleyParser.java:365 | the same for the Java split |
| Text.SplitOnCharJoin | src/parser/RuleFile.java:114 | splitting on a character gives back the pieces joined by it |
| Text.JavaSplitOnCharJoin | src/util/RuleFile.java:135 | the same for the Java split, pieces non-empty |
| Text.EachFollowedByIsJoin | src/base/Rule.java:195-205 | appending each piece and a separator is the join followed by one separator |
| Text.PrecededIsJoin | src/base/Edge.java:122-135 | a first piece followed by each later piece preceded by the separator is the join |
| Text.IntString | src/base/Rule.java:169-187 | `Integer.toString`: non-empty, no space, a minus sign exactly for negatives |
| Text.NatStringValue | src/parser/RuleFile.java:186 | the decimal digits read back give the number |
| Indexing.Index.IndexOf | src/parser/EarleyParser.java:179 | the position of the item, or -1 exactly when it is absent |
| Indexing.Index.Add | src/base/FragmentRule.java:26 | `indexOf(x, true)`: an item already present keeps its id and the index is unchanged; a new item gets the next id at the end; the index stays duplicate-free |
| Indexing.Find | src/parser/EarleyParser.java:600 | the first position holding the item, or -1 exactly when it is absent |
| Indexing.AddKeepsIds | src/base/FragmentRule.java:32-35 | interning one item never changes the id of an item already there |
| Indexing.FindUnique | src/parser/EarleyParser.java:1502 | in a duplicate-free index the item at position `i` is found at `i` |
| Indexing.AddAll | src/base/TerminalRule.java:53-56 | interning a list gives one id per item, each naming that item, and keeps every earlier id |
| Rules.Rule.TagFlags | src/base/FragmentRule.java:169-171 | one flag per child; flag `i` says whether child `i` is a tag |
| Rules.Rule.BuildMotherRule | src/base/Rule.java:41-43 | `mother -> []` exactly when the rule is not a mother rule (a mother rule gives null, src/base/MotherRule.java:39-41) |
| Rules.Rule.BuildViaRule | src/base/Rule.java:45-47 | the child-less rule of the child at `dot`, and null for a mother rule |
| Rules.Rule.BuildToRule | src/base/FragmentRule.java:155-157 | a well-counted rule with the same mother over exactly the children and flags after `dot`; null for a mother rule |
| Rules.CountTrueZero | src/base/FragmentRule.java:74-85 | the tag count is zero exactly when no flag is set |
| Rules.UniformCount | src/base/FragmentRule.java:107-120 | with every flag equal to `v` the count is all children or none |
| Rules.FragmentFromFlags | src/base/FragmentRule.java:74-85 | the fragment rule keeps mother, children and the flags of its children, and counts its tags right |
| Rules.FragmentAll | src/base/FragmentRule.java:107-120 | every child is a tag or every child is a word, and the count is all or none |
| Rules.FragmentUnary | src/base/FragmentRule.java:145-152 | a one-child rule; unary iff its child is a tag, terminal iff it is not |
| Rules.TerminalIffNoTag | src/base/Rule.java:37-39 | a rule is terminal exactly when none of its children is a tag |
| Rules.FixedClassesWellCounted | src/base/TerminalRule.java:63-73 | terminal, tag and mother rules report a tag count that agrees with their flags |
| Rules.ClassFacts | src/base/TagRule.java:24-34 | terminal rules are never unary; a tag rule is unary iff it has one child and counts every child; a mother rule has no children |
| Rules.EqualityAcrossClasses | src/base/Rule.java:86-120 | equality ignores the class: tag rule = all-tag fragment rule, terminal rule = all-word fragment rule, mother rule = empty terminal rule; mother rules are equal iff their mothers are |
| Rules.RulesEqual | src/base/Rule.java:86-120 | the comparison loop answers true iff mothers, children and tag flags all agree |
| Rules.ChildrenAfter | src/base/Rule.java:76-82 | the copy holds exactly the children from `dot` on |
| Rules.TagFlagsAfter | src/base/Rule.java:50-56 | the flags aligned with the children from `dot` on |
| Rules.InternChildren | src/base/FragmentRule.java:24-38 | each child string is interned in the tag index when flagged and in the word index otherwise; both indexes only grow and stay duplicate-free |
| Rules.FragmentFromStrings | src/base/FragmentRule.java:24-38 | the rule names exactly the given mother and children (words marked) and counts its tags from the flags |
| Rules.FragmentAllFromStrings | src/base/FragmentRule.java:46-66 | the same with one flag for all children |
| Rules.TerminalFromStrings | src/base/TerminalRule.java:49-57 | a terminal rule naming the mother and the word children |
| Rules.RhsString | src/base/Rule.java:195-205 | appending each child and a space, then deleting the last space, gives the children joined by single spaces |
| Rules.RuleToString | src/base/Rule.java:165-167 | `mother->[children]` |
| Rules.MarkString | src/base/Rule.java:154-156 | `mother --> children` |
| Rules.TimString | src/base/Rule.java:160-162 | `mother children` |
| Rules.FragmentStringRoundTrip | src/base/FragmentRule.java:24-38 | a rule built from strings prints back as the mother and the same children, words marked with `_` |
| Rules.RuleToNumericString | src/base/Rule.java:169-187 | `m->[c1 c2]` with ids in decimal and word ids marked with `_` |
| Rules.Edge.NumRemainingChildren | src/base/Edge.java:42-44 | never negative for a valid edge, and zero exactly when the dot is at the end |
| Rules.Edge.PrevEdge | src/base/Edge.java:62-68 | null exactly at dot 0; otherwise the same rule with the dot one back |
| Rules.Edge.MotherEdge | src/base/Edge.java:74-76 | the child-less dot-0 edge with the same mother |
| Rules.Edge.ViaEdge | src/base/Edge.java:82-88 | exists exactly when the child after the dot is a tag, and is that tag's child-less edge |
| Rules.Edge.ToEdge | src/base/Edge.java:94-96 | the dot-0 edge over the remaining children after the first, same mother; null for a mother rule |
| Rules.TagEdge | src/base/Edge.java:82-88 | the child-less dot-0 edge of a tag |
| Rules.PrevStepsReachStart | src/base/Edge.java:62-68 | `dot` steps back reach dot 0 of the same rule, and one more step gives null |
| Rules.PrevEdgeKeepsEquality | src/base/Edge.java:98-116 | two edges with dots above 0 are equal iff their previous edges are |
| Rules.DottedString | src/base/Edge.java:122-135 | the loop builds the consumed children, the dot, then the remaining children |
| Rules.EdgeToString | src/base/Edge.java:122-135 | the dotted text of the edge from the index strings |
| Rules.EdgeToNumericString | src/base/Edge.java:137-150 | the dotted text with ids in decimal |
| Rules.DottedTextExample | src/base/Edge.java:122-135 | `X -> A B . D` for dot 2 and `X -> . A B D` for dot 0 |
| Rules.ProbRule.GetEdge | src/base/ProbRule.java:42-44 | dot 0 of the same rule, with every child remaining |
| Rules.ProbRule.WithProb | src/base/ProbRule.java:54-56 | only the probability changes; rule, bias and class stay |
| Rules.BiasIgnoredByEquality | src/base/ProbRule.java:62-78 | rules that differ only in bias, or in carrying one, are equal; a plain rule's bias is 0 |
| Rules.WithProbEquality | src/base/ProbRule.java:62-78 | after `setProb(p)` the rule equals the old one iff `p` is the old probability |
| Rules.ProbRuleText | src/base/BiasProbRule.java:18-20 | `RULE : p`, with the bias in front for a biased rule (src/base/ProbRule.java:85-87) |
| Rules.ProbMarkString | src/base/BiasProbRule.java:23-25 | `p X --> ...`, with the bias in front for a biased rule |
| RuleTable.ListEntryNamed | src/base/RuleSet.java:61-66 | every id in a mother's list names a stored rule of that mother |
| RuleTable.AddAsWrittenValid | src/base/RuleSet.java:38-69 | `add` as written keeps the table valid; a new rule gets the next id; a repeated rule keeps its id and aborts exactly when its probability differs by 1e-10 or more from `allRules[id]` |
| RuleTable.AddCorrectedAligned | src/base/RuleSet.java:38-69 | the corrected `add` keeps `allRules[id]` the rule numbered `id`; a repeat leaves the table unchanged and succeeds exactly when the probabilities agree |
| RuleTable.NewRuleKeepsValid | src/base/RuleSet.java:53-66 | registering a new rule under the next id keeps the table valid |
| RuleTable.NewRuleListSound | src/base/RuleSet.java:61-66 | appending the new id keeps each mother's list increasing and sound |
| RuleTable.NewRuleOwnList | src/base/RuleSet.java:61-66 | the new rule's mother gets a list that stays increasing and names only rules of that mother |
| RuleTable.NewRuleOtherList | src/base/RuleSet.java:61-66 | the lists of the other mothers are unaffected and stay sound |
| RuleTable.RepeatedAddShiftsIds | src/base/RuleSet.java:38-47 | adding `a`, `a`, `b` as written gives ids 0, 0, 1, but `get(1)` is `a` again, and adding `b` once more aborts |
| RuleTable.RepeatedAddCorrected | src/base/RuleSet.java:38-47 | the same sequence with the corrected `add` gives `allRules == [a, b]`, and adding `b` again returns 1 |
| RuleTable.AddAgainCorrected | src/base/RuleSet.java:41-45 | with the corrected `add`, adding a rule already stored changes nothing and returns its id |
| RuleTable.AppendOnlyValid | src/base/RuleSet.java:39-45 | appending to the rule list without registering the rule, as `add` as written does for a repeated rule, keeps the table valid |
| RuleTable.IndexOf | src/base/RuleSet.java:92-98 | -1 exactly for a rule not in the table, otherwise an id below `size()` |
| RuleTable.IndexOfGet | src/base/RuleSet.java:100-102 | in the intended layout `indexOf(get(i).getRule()) == i` |
| RuleTable.SetProb | src/base/RuleSet.java:81-83 | only the probability of rule `id` changes |
| RuleTable.SetProbAligned | src/base/RuleSet.java:81-83 | changing a probability keeps the intended layout |
| RuleTable.AddAllSpec | src/base/RuleSet.java:71-75 | adding each rule in turn with `add` as written keeps the table valid, appends every rule to `allRules`, keeps every key and registers each rule's key, raising `size()` by at most the number of rules; or aborts |
| RuleTable.AddAsWrittenKeys | src/base/RuleSet.java:38-69 | `add` as written appends the rule, keeps every key, registers the rule's key and raises `size()` by at most 1 |
| RuleTable.AddAllStep | src/base/RuleSet.java:71-75 | one rule added in front of the rest of `addAll` gives the whole list appended and every key registered |
| RuleTable.RuleSet.constructor | src/base/RuleSet.java:29-36 | an empty table |
| RuleTable.RuleSet.Add | src/base/RuleSet.java:38-69 | the object moves to `add` as written of its old state and stays valid |
| RuleTable.RuleSet.AddOnce | src/base/RuleSet.java:38-69 | the intended `add`: the object moves to the corrected `add` of its old state and keeps `allRules[id]` the rule numbered `id` |
| RuleTable.RuleSet.AddAll | src/base/RuleSet.java:71-75 | the loop of `add` as written fails iff adding the rules one by one fails, otherwise ends in that table, and the table stays valid |
| RuleTable.RuleSet.GetProb | src/base/RuleSet.java:77-79 | the stored probability of rule `id` |
| RuleTable.RuleSet.SetProbOf | src/base/RuleSet.java:81-83 | the object moves to the table with that one probability changed |
| RuleTable.RuleSet.Size | src/base/RuleSet.java:84-86 | the number of distinct rules |
| RuleTable.RuleSet.Contains | src/base/RuleSet.java:88-90 | true iff `indexOf` finds the rule |
| RuleTable.RuleSet.IndexOfRule | src/base/RuleSet.java:92-98 | the id of the rule, or -1 |
| RuleTable.RuleSet.Get | src/base/RuleSet.java:100-102 | the stored entry, whose rule's id is `i` in the intended layout |
| RuleLine.LazyArrowStops | src/util/RuleFile.java:35 | the lazy `(.+?)->\[` group ends at the first `->[` after a non-empty tag that leaves a right-hand side without a line terminator |
| RuleLine.MatchRuleParts | src/util/RuleFile.java:78-79 | a match splits the line into a non-empty tag, a non-empty right-hand side and a number with `->[` and `] : ` between them |
| RuleLine.MatchBiasRuleParts | src/util/RuleFile.java:82-83 | a biased match is a number, a space and a line the plain pattern matches |
| RuleLine.SplitAt | src/util/RuleFile.java:35 | a line is its tag, `->[`, right-hand side, `] : ` and number, cut at the arrow and at the closing bracket |
| RuleLine.MatchRuleRoundTrip | src/util/RuleFile.java:35 | a written line `TAG->[RHS] : NUM` matches with exactly those groups |
| RuleLine.NumberSuffixRun | src/util/RuleFile.java:35 | the `([\d\.\+\-Ee]+)` group at the end of a line is the longest run of number characters there |
| RuleLine.MatchOfParts | src/util/RuleFile.java:35 | the same, stated on the positions of the parts |
| RuleLine.NumberSuffixIs | src/util/RuleFile.java:35 | the number group of a written line is the number written |
| RuleLine.LazyArrowFindsTag | src/util/RuleFile.java:35 | a tag without `->[` is the tag group |
| RuleLine.MatchBiasRoundTrip | src/util/RuleFile.java:36 | a written biased line matches with its bias and its rule groups |
| RuleLine.MatchBiasOf | src/util/RuleFile.java:36 | a bias, a space and a matching rule line give that biased match |
| RuleLine.NumberPrefixIs | src/util/RuleFile.java:36 | the bias group of a written line is the bias written |
| RuleLine.NumberPrefixRun | src/util/RuleFile.java:36 | the bias group at the start of a biased line is the longest run of number characters there |
| RuleLine.TrimParts | src/util/RuleFile.java:77 | the line without its leading and trailing whitespace runs, starting and ending with a non-blank |
| RuleLine.TrailingSpacesRun | src/util/RuleFile.java:77 | the trailing `\s+$` run is all whitespace and as long as it can be |
| RuleLine.TrimKeeps | src/parser/RuleFile.java:94 | trimming a line that starts and ends with a non-blank changes nothing |
| Lt2Grammar.CleanLine | code/lt2grammar.py:48-55 | the leading whitespace run is removed and at most two trailing characters, and the result does not start with whitespace |
| Lt2Grammar.CleanLineTrailingBlanks | code/lt2grammar.py:54 | `\s$` removes only the newline or one blank before it: a line ending in two blanks keeps one |
| Lt2Grammar.ProcessRuleLine | code/lt2grammar.py:57-71 | with a Dirichlet prior (first two tokens numbers) the tag is token 2 and the children tokens 4..; otherwise the tag is token 0 and the children tokens 2..; too few tokens or a number in the wrong place fails |
| Lt2Grammar.ProcessPlainLine | code/lt2grammar.py:66-70 | a written line `TAG SEP CHILDREN...` parses to that tag and those children |
| Lt2Grammar.ProcessPriorLine | code/lt2grammar.py:61-65 | a written line with two prior numbers in front parses to the same tag and children |
| Lt2Grammar.ParseTokens | code/lt2grammar.py:57-71 | both branches, stated for any joined token list |
| Lt2Grammar.ParsesTo | code/lt2grammar.py:58-59 | cleaning and splitting a written line gives back its tokens |
| Lt2Grammar.CleanJoinedLine | code/lt2grammar.py:54 | cleaning a written line only drops its newline |
| Lt2Grammar.RewriteChildren | code/lt2grammar.py:88-111 | nonterminals kept; in a rule of several children each terminal becomes its `PSEUDO` tag; a single terminal becomes `_word` |
| Lt2Grammar.AddPseudo | code/lt2grammar.py:100-108 | a pseudo tag is recorded with its one word, and fails exactly when it was recorded with anything else |
| Lt2Grammar.PseudoFoldEntries | code/lt2grammar.py:92-108 | after the children, every terminal child's pseudo tag maps to its one word, earlier entries stay, and nothing else is added |
| Lt2Grammar.PseudoFoldMonotone | code/lt2grammar.py:100-108 | entries recorded before a line are unchanged by it |
| Lt2Grammar.StepLineGrows | code/lt2grammar.py:83-122 | a line that passes parses, only adds to the rule table, appends its rule and records its right-hand side under its tag |
| Lt2Grammar.RunEmitsOneRulePerLine | code/lt2grammar.py:83-125 | one rule per input line, in input order, each the line's own rewritten rule |
| Lt2Grammar.RunRecorded | code/lt2grammar.py:113-120 | every listed rule is recorded under its tag |
| Lt2Grammar.PseudoEntriesMembers | code/lt2grammar.py:95-108 | the pseudo right-hand sides a line adds under a tag are exactly `_c` for its terminal children `c` whose pseudo tag is that tag |
| Lt2Grammar.RhsOfMembers | code/lt2grammar.py:85-116 | the right-hand sides a list of lines contributes under a tag are exactly those some line contributes |
| Lt2Grammar.PseudoFoldTable | code/lt2grammar.py:92-108 | a line's pseudo updates add exactly its pseudo rules to every tag and never register an empty entry |
| Lt2Grammar.StepLineTable | code/lt2grammar.py:85-116 | one line adds exactly its own rewritten right-hand side under its tag and its pseudo rules under their tags, and nothing else |
| Lt2Grammar.RunTable | code/lt2grammar.py:85-116 | after the loop a tag is in the table iff the lines contribute a right-hand side to it, and its entry is exactly the set of right-hand sides they contribute (both inclusions) |
| Lt2Grammar.Uniform | code/lt2grammar.py:127-130 | a tag's probability lies in (0, 1] and times its number of distinct right-hand sides is 1 |
| Lt2Grammar.ProcessFiles | code/lt2grammar.py:73-142 | the loop fails iff some line fails; otherwise one output rule per line, each the line's rule with its tag's uniform probability, which is 1 over the number of distinct right-hand sides the lines contribute to that tag (`RhsOf`) |
| Lt2Grammar.ProcessLine | code/lt2grammar.py:83-122 | one loop iteration is the step function of the run |
| Lt2Grammar.RewriteLineChildren | code/lt2grammar.py:88-111 | the child loop fails exactly when the pseudo-tag checks fail, and otherwise gives the rewritten children and the grown table |
| Lt2Grammar.Emit | code/lt2grammar.py:137-140 | one output line per rule, in order, with the uniform probability of its tag |
| Lt2Grammar.FailurePersists | code/lt2grammar.py:83-122 | once a line fails the whole run fails |
| GrammarReader.ReadLine | src/util/RuleFile.java:77-122 | a line is read only when the plain or, in a biased file, the biased pattern matches its trimmed text; a plain file gives bias 0 and an unbiased line of a biased file gives bias 1, otherwise the read fails |
| GrammarReader.ReadPlainLine | src/util/RuleFile.java:107-122 | a written line `TAG->[RHS] : NUM` of a plain file reads back as bias 0, that tag, that right-hand side and the parsed number |
| GrammarReader.ReadBiasedLine | src/util/RuleFile.java:95-106 | a written biased line reads back with its bias, tag, right-hand side and probability |
| GrammarReader.ReadUnbiasedLineOfBiasedFile | src/util/RuleFile.java:107-110 | a plain line in a biased file reads back with bias 1 |
| GrammarReader.Clamp | src/util/RuleFile.java:131-134 | a probability just above 1 (below 1.000001) becomes 1, within 0.000001 of the input; any other value is kept |
| GrammarReader.WithBias | src/util/RuleFile.java:144-148 | the rule is stored with its probability, and with its bias exactly when the bias is not 0 |
| GrammarReader.WithWord | src/util/RuleFile.java:209-235 | adding a word to a tag fails exactly when the pair is already there; otherwise the pair gets the probability, the word lists the tag, and every other entry is kept and nothing else is added |
| GrammarReader.WithWordAgrees | src/util/RuleFile.java:218-234 | the tag-to-words and word-to-tags maps keep describing the same pairs |
| GrammarReader.RuleOfFlags | src/util/RuleFile.java:170-177 | the rule built from the child indices and tag flags is a fragment rule exactly when some child is a tag and a tag rule exactly when there are no children, with those children and flags |
| GrammarReader.LineRule | src/util/RuleFile.java:155-177 | the children are interned in order, tags in the tag index and `_`-words without the underscore in the word index; both indices only grow and the rule's children name the right-hand side's strings |
| GrammarReader.DecoratedChildren | src/util/RuleFile.java:158-168 | putting back the underscore on word children gives the right-hand side's children |
| GrammarReader.ApplyWord | src/util/RuleFile.java:140-148 | a single `_word` child adds a word entry and a terminal rule, leaving the nonterminal map alone |
| GrammarReader.ApplyRule | src/util/RuleFile.java:149-184 | any other right-hand side adds a rule and leaves the lexicon alone |
| GrammarReader.Apply | src/util/RuleFile.java:124-186 | a negative probability stops the read |
| GrammarReader.Step | src/util/RuleFile.java:74-186 | a line that does not match stops the read, and a line that is read has a probability of at least 0 |
| GrammarReader.DenseAdd | src/util/RuleFile.java:150-152 | a new nonterminal gets the next free dense number, so the numbers stay 0 .. size-1 |
| GrammarReader.ExtendsTrans | src/util/RuleFile.java:55-193 | growing the grammar line by line is transitive |
| GrammarReader.AddKeepsNamed | src/util/RuleFile.java:186 | `add` as written keeps the table valid, appends the rule to `allRules`, numbers at most one new rule, and every rule still names interned tags and words |
| GrammarReader.WordRuleNamed | src/util/RuleFile.java:140-145 | the terminal rule of a `_word` line renders back as that child |
| GrammarReader.ApplyWordConsistent | src/util/RuleFile.java:140-148 | a word line keeps the grammar consistent and only grows it |
| GrammarReader.ApplyRuleConsistent | src/util/RuleFile.java:149-186 | a rule line keeps the grammar consistent and only grows it |
| GrammarReader.ApplyConsistent | src/util/RuleFile.java:124-186 | every read line keeps the grammar consistent and only grows it |
| GrammarReader.StepConsistent | src/util/RuleFile.java:74-186 | the same, from the raw line |
| GrammarReader.RendersGrows | src/util/RuleFile.java:55-193 | a rule the grammar renders is still rendered after it grows |
| GrammarReader.AddRecords | src/util/RuleFile.java:186 | after `add` as written, the entry it appended renders as the line's mother and children, also when an earlier copy holds the rule's id |
| GrammarReader.ApplyWordRecords | src/util/RuleFile.java:140-148 | after a word line the entry appended to the rule set renders as `TAG -> _word`, and the lexicon lists the word under the tag |
| GrammarReader.ApplyRuleRecords | src/util/RuleFile.java:149-186 | after a rule line the entry appended to the rule set renders as the line, and its mother is in the nonterminal map, with the next free number if it is new |
| GrammarReader.ApplyRecords | src/util/RuleFile.java:124-186 | every read line is recorded in the entry it appended, split on spaces and with its clamped probability |
| GrammarReader.StepRecordsLine | src/util/RuleFile.java:74-186 | the same, from the raw line |
| GrammarReader.Run | src/util/RuleFile.java:55-193 | reading a file keeps the grammar consistent, only grows it, appends exactly one entry to the rule set per line and numbers at most one new rule per line |
| GrammarReader.RunNext | src/util/RuleFile.java:74 | reading one more line is one more step from the grammar read so far |
| GrammarReader.RunLast | src/util/RuleFile.java:74 | a failed prefix fails the file; otherwise the last line is one step from the prefix's grammar |
| GrammarReader.RunFailStays | src/util/RuleFile.java:85-88 | once a line fails, the whole file fails |
| GrammarReader.RunRecordsEveryLine | src/util/RuleFile.java:55-193 | after a successful read, line `k` of the file reads back from entry `k` of the rules appended by the read |
| GrammarReader.RunSnocFacts | src/util/RuleFile.java:74 | a successful read of a file is a successful read of all but its last line, followed by the last line read back from the entry it appended |
| GrammarReader.SplitLast | src/util/RuleFile.java:74 | a file is its lines before the last, then the last |
| GrammarReader.LinesAppended | src/util/RuleFile.java:74-186 | the lines read back before one more line is read still read back, and the new line reads back from the next entry |
| GrammarReader.StepLineAt | src/util/RuleFile.java:74-186 | a line read is read back from the entry it appended, and the grammar only grows |
| GrammarReader.ExtendsKeepsEntries | src/util/RuleFile.java:55-193 | once the grammar has grown, every entry reads as it did before |
| GrammarReader.RenderedGrows | src/util/RuleFile.java:55-193 | an entry reads the same once the grammar has grown |
| GrammarReader.Tables.constructor | src/util/RuleFile.java:55-62 | the reader starts from empty maps and empty indices |
| GrammarReader.Tables.AddWord | src/util/RuleFile.java:209-235 | the in-place word add does to the maps what WithWord does, and fails when it does |
| GrammarReader.AddWordLine | src/util/RuleFile.java:140-148 | the in-place word line leaves the rule set and tables equal to ApplyWord's result |
| GrammarReader.AddRuleLine | src/util/RuleFile.java:149-186 | the in-place rule line leaves them equal to ApplyRule's result |
| GrammarReader.ReadOneLine | src/util/RuleFile.java:74-186 | one iteration of the read loop leaves them equal to Step's result, and fails when Step does |
| GrammarReader.ParseRuleFile | src/util/RuleFile.java:55-207 | reading all lines leaves them equal to Run's result, and fails when Run does |
| LegacyReader.WithTagFor | src/parser/RuleFile.java:258-262 | the word lists the tagged word afterwards; every other word's tag set is kept and no tag is dropped |
| LegacyReader.AddWord | src/parser/RuleFile.java:207-263 | a word starting with `UNK` goes to the tag's unknown-word table, marks the tag as a preterminal and, unless it is `UNK` itself, joins the seen endings; any other word goes to the tag's word table; a word already listed for the tag fails; the word lists the tag and the rule lists are untouched |
| LegacyReader.PseudoTagNameExample | src/parser/RuleFile.java:184-186 | the pseudo tag of `b`, child 1 of the first extended rule of `A`, is `PSEUDO\|A1-1\|b` |
| LegacyReader.DigitsThenSeparator | src/parser/RuleFile.java:186 | a decimal number followed by a non-digit is read back unambiguously |
| LegacyReader.NameTailInjective | src/parser/RuleFile.java:186 | the `<k>-<i>\|<word>` tail of a pseudo name determines k, i and the word |
| LegacyReader.PseudoTagNamesDistinct | src/parser/RuleFile.java:186 | two pseudo names of one tag are equal only for the same count, child position and word |
| LegacyReader.PseudoTags | src/parser/RuleFile.java:181-189 | there is one pseudo tag per word, the i-th named with child position i+1 |
| LegacyReader.PseudoTagsDistinct | src/parser/RuleFile.java:181-189 | the pseudo tags of one extended rule are pairwise distinct |
| LegacyReader.WithPseudoTags | src/parser/RuleFile.java:195-199 | every word lists its pseudo tag and no earlier entry is lost |
| LegacyReader.WithPseudoTagsNext | src/parser/RuleFile.java:183-200 | the loop over the words adds one tagged word per iteration |
| LegacyReader.ExtendedRule | src/parser/RuleFile.java:174-205 | the tag's counter goes up by one, the rule over the pseudo tags named with that count is appended, each word lists its pseudo tag, and the other tables are untouched |
| LegacyReader.Stripped | src/parser/RuleFile.java:126-135 | the words are the children without their underscores |
| LegacyReader.Step | src/parser/RuleFile.java:94-161 | a line that is read matches the pattern with a probability of at least 0 |
| LegacyReader.PlaceClassifies | src/parser/RuleFile.java:118-156 | a single `_word` child is a word entry; a right-hand side of words only is an extended rule, over pseudo tags when they are on and plain otherwise; anything else is appended to the rules |
| LegacyReader.CountOf | src/parser/RuleFile.java:178-179 | the count of a tag's extended rules is at most the number of extended rules |
| LegacyReader.PlaceKeepsCounter | src/parser/RuleFile.java:174-205 | with pseudo tags on, each tag's counter stays equal to its number of extended rules, and a new extended rule is named with that number |
| LegacyReader.StepKeepsCounter | src/parser/RuleFile.java:91-166 | the same, for one line |
| LegacyReader.RunKeepsCounter | src/parser/RuleFile.java:87-166 | reading a file from no extended rules keeps each counter equal to its tag's number of extended rules |
| LegacyReader.Tables.constructor | src/parser/RuleFile.java:41-49 | the reader starts from empty collections |
| LegacyReader.Tables.AddWordTo | src/parser/RuleFile.java:207-263 | the in-place add does what AddWord does, and fails when it does |
| LegacyReader.Tables.ProcessExtendedRule | src/parser/RuleFile.java:174-205 | the in-place version leaves the state ExtendedRule describes |
| LegacyReader.Tables.ListPseudoTags | src/parser/RuleFile.java:181-200 | the loop builds the pseudo tags and lists each under its word |
| LegacyReader.Tables.PlaceLine | src/parser/RuleFile.java:118-157 | the in-place dispatch leaves the state Place describes |
| LegacyReader.Tables.ReadOneLine | src/parser/RuleFile.java:92-161 | one iteration leaves the state Step describes, and fails when it does |
| LegacyReader.Tables.ParseRuleFile | src/parser/RuleFile.java:77-172 | the read loop leaves the state Run describes, and fails when it does |
| LegacyReader.Tables.ParseRuleString | src/parser/RuleFile.java:41-49 | the short overload starts from empty lexicon tables and reads with the static pseudo-tag flag, whatever flag is passed |
| LegacyReader.RunNext | src/parser/RuleFile.java:91 | reading one more line is one more step |
| LegacyReader.RunFailStays | src/parser/RuleFile.java:158-161 | once a line fails, the whole file fails |
| EdgeSpaces.CanonEquals | src/base/Edge.java:98-116 | two edges have the same canonical form exactly when `Edge.equals` holds for them |
| EdgeSpaces.Via | src/base/Edge.java:82-87 | the via edge of an active edge is a passive edge |
| EdgeSpaces.ToOf | src/parser/StandardEdgeSpace.java:22-25 | the to edge has the same mother and one child fewer after the dot |
| EdgeSpaces.CanonOperations | src/base/Edge.java:62-96 | the canonical forms of the tag edge, the via edge, the dot-moved edge and the to-rule edge are the ones the edge space uses |
| EdgeSpaces.IndexOf | src/parser/EdgeSpace.java:133-135 | the index of an edge is its position, and -1 exactly when it is not stored |
| EdgeSpaces.AddEdgeF | src/parser/EdgeSpace.java:95-131 | adding an edge keeps the space well formed, never removes an edge, and returns a valid state |
| EdgeSpaces.GrowsTrans | src/parser/EdgeSpace.java:95-131 | growing the space is transitive |
| EdgeSpaces.AddEdgeGrows | src/parser/EdgeSpace.java:95-131 | the returned state holds the edge; a stored edge returns its own index with nothing changed, and a new edge gets the next number |
| EdgeSpaces.AddEdgeNewShape | src/parser/EdgeSpace.java:101-119 | setting the new edge's to entry after the recursive adds keeps the growth and the edge |
| EdgeSpaces.AddEdgeDistinct | src/parser/EdgeSpace.java:28 | the edges stay pairwise distinct, as an index keeps them |
| EdgeSpaces.ClosedExtends | src/parser/EdgeSpace.java:32 | an edge whose via and to edges are stored stays so as the space grows |
| EdgeSpaces.ClosedAtOtherTo | src/parser/EdgeSpace.java:119 | setting another state's to entry does not disturb an edge's closure |
| EdgeSpaces.AddEdgeCloses | src/parser/EdgeSpace.java:95-131 | after an add every new edge is closed (passive with to -1, or active with via stored and to pointing at its to edge) and closed edges stay closed |
| EdgeSpaces.AddActiveEdgeCloses | src/parser/EdgeSpace.java:106-128 | the same, for a new active edge |
| EdgeSpaces.ClosesAfterBothEdges | src/parser/EdgeSpace.java:111-119 | once the via and to edges are added, setting the to entry closes the new edge |
| EdgeSpaces.AddEdgeKeepsClosed | src/parser/EdgeSpace.java:95-131 | adding an edge to a closed space leaves it closed |
| EdgeSpaces.IndexOfTag | src/parser/EdgeSpace.java:86-90 | the index of `tag -> []` is its position, and -1 exactly when it is not stored |
| EdgeSpaces.AddRules | src/parser/EdgeSpace.java:51-60 | adding every rule's edge keeps the space well formed |
| EdgeSpaces.AddTags | src/parser/EdgeSpace.java:64-72 | adding the missing tag edges keeps the space well formed |
| EdgeSpaces.AddRulesClosed | src/parser/EdgeSpace.java:51-60 | the rule loop keeps the space closed |
| EdgeSpaces.AddTagsClosed | src/parser/EdgeSpace.java:64-72 | the tag loop keeps the space closed |
| EdgeSpaces.AddTagsComplete | src/parser/EdgeSpace.java:64-72 | after the tag loop every tag has its `tag -> []` edge |
| EdgeSpaces.AddTagStep | src/parser/EdgeSpace.java:65-71 | one iteration of the tag loop adds the missing tag and keeps the earlier ones |
| EdgeSpaces.BuildComplete | src/parser/EdgeSpace.java:43-77 | a built space is closed and holds every tag edge |
| EdgeSpaces.ChainEnds | src/parser/EdgeSpace.java:32 | following to entries from any edge ends, after as many steps as it has children left, at a passive edge with to -1 and the same mother: the completed rule in the standard space, the mother's empty edge in the left-wildcard one |
| EdgeSpaces.StandardStep | src/parser/StandardEdgeSpace.java:22-25 | in a standard space the to entry of an active edge is the same rule with the dot one further |
| EdgeSpaces.CompletedEdgeNotMotherEdge | src/parser/StandardEdgeSpace.java:22-25 | a completed rule with children is never the mother's empty edge |
| EdgeSpaces.WildcardSharesTo | src/parser/EdgeSpace.java:22-23 | in a left-wildcard space two active edges with the same mother and the same children after the first remaining one share their to state |
| EdgeSpaces.EdgeSpace.constructor | src/parser/EdgeSpace.java:35-41 | a new space is empty, with a to array of 1000, and closed |
| EdgeSpaces.EdgeSpace.IncrementSize | src/parser/EdgeSpace.java:146-160 | the size goes up by one and the to array doubles when full, keeping its entries |
| EdgeSpaces.EdgeSpace.StoreEdgeInIndex | src/parser/EdgeSpace.java:162-170 | a new edge is stored at the old size with a to entry of 0 |
| EdgeSpaces.EdgeSpace.AddEdge | src/parser/EdgeSpace.java:95-131 | the in-place add leaves the space and returns the state AddEdgeF describes |
| EdgeSpaces.EdgeSpace.Link | src/parser/EdgeSpace.java:106-119 | the active branch adds the via and to edges and sets the state's to entry to the to edge |
| EdgeSpaces.EdgeSpace.SetTo | src/parser/EdgeSpace.java:105 | one to entry changes and nothing else |
| EdgeSpaces.EdgeSpace.Build | src/parser/EdgeSpace.java:43-77 | the in-place build leaves the space BuildF describes |
| StateSpaces.MotherEdge | src/parser/StateSpace.java:151 | the mother edge is the edge's mother with no daughters |
| StateSpaces.ChildEdge | src/parser/StateSpace.java:171 | the via edge is the first daughter with no daughters |
| StateSpaces.RestEdge | src/parser/StateSpace.java:177 | the to edge is the mother with the daughters after the first |
| StateSpaces.Empty | src/parser/StateSpace.java:20-89 | a new state space holds no edge |
| StateSpaces.IndexOf | src/parser/StateSpace.java:73-80 | the index of an edge is its id, and -1 exactly when it is not stored |
| StateSpaces.IndexOfTag | src/parser/StateSpace.java:67-70 | the index of `tag -> []` is its id, and -1 exactly when it is not stored |
| StateSpaces.Store | src/parser/StateSpace.java:130-141 | a stored edge returns its id with nothing changed; a new edge is appended with id size and zeroed array slots |
| StateSpaces.MarkMother | src/parser/StateSpace.java:155-162 | recording the mother changes no edge |
| StateSpaces.MarkPassive | src/parser/StateSpace.java:165-168 | recording a passive edge changes no edge |
| StateSpaces.SetVia | src/parser/StateSpace.java:173-174 | recording the via state changes no edge |
| StateSpaces.Finish | src/parser/StateSpace.java:179-192 | recording the to state and the via map changes no edge |
| StateSpaces.AddEdgeF | src/parser/StateSpace.java:146-197 | adding an edge only appends edges and returns the edge's id |
| StateSpaces.Prefix | src/parser/StateSpace.java:148-162 | after storing the edge and its mother edge both ids hold those edges |
| StateSpaces.AddActive | src/parser/StateSpace.java:169-193 | the active branch only appends edges |
| StateSpaces.KeepsRefl | src/parser/StateSpace.java:146-197 | a space keeps its own facts |
| StateSpaces.KeepsTrans | src/parser/StateSpace.java:146-197 | keeping the earlier ids, sets and right slots is transitive |
| StateSpaces.SameSlot | src/parser/StateSpace.java:22-23 | with distinct edges a right mother or via slot has one possible value |
| StateSpaces.ClosedKept | src/parser/StateSpace.java:146-197 | an edge whose mother, via and to slots and sets are right stays so as the space grows |
| StateSpaces.StoreKeeps | src/parser/StateSpace.java:130-141 | storing keeps every earlier fact |
| StateSpaces.MarkMotherKeeps | src/parser/StateSpace.java:155-162 | `mother[state]` becomes the mother's id, which is passive with via and to -1 and in the preterminal indexer |
| StateSpaces.MarkPassiveKeeps | src/parser/StateSpace.java:165-168 | an edge without daughters gets via and to -1 and joins the passive states |
| StateSpaces.SetViaKeeps | src/parser/StateSpace.java:171-174 | an active edge's via slot becomes the first daughter's id and it joins the active states |
| StateSpaces.FinishKeeps | src/parser/StateSpace.java:177-192 | the to slot becomes the rest edge's id, the mother joins the nonterminal indexer and the state is listed under its via state |
| StateSpaces.StoreDistinct | src/parser/StateSpace.java:22-23 | the edges stay pairwise distinct |
| StateSpaces.AddEdgeKeeps | src/parser/StateSpace.java:146-197 | adding keeps every earlier fact and distinctness, and returns the old id of a stored edge or the next id of a new one |
| StateSpaces.AddActiveKeeps | src/parser/StateSpace.java:169-193 | the active branch keeps every earlier fact and distinctness |
| StateSpaces.PrefixFacts | src/parser/StateSpace.java:148-162 | after the first steps of the add the edge's mother slot is right and the mother is a preterminal |
| StateSpaces.PrefixPassive | src/parser/StateSpace.java:151-158 | a daughterless edge is its own mother edge, passive with via and to -1 |
| StateSpaces.SelfClosed | src/parser/StateSpace.java:146-197 | the added edge ends with every slot and set right |
| StateSpaces.PassiveGlue | src/parser/StateSpace.java:165-168 | the passive branch closes the edge |
| StateSpaces.ActiveSelfClosed | src/parser/StateSpace.java:169-193 | the active branch closes the edge |
| StateSpaces.SelfGlue | src/parser/StateSpace.java:169-193 | the slots set along the active branch together close the edge |
| StateSpaces.MotherClosed | src/parser/StateSpace.java:151-158 | the mother edge ends closed |
| StateSpaces.MotherId | src/parser/StateSpace.java:146-197 | the add is the passive or the active branch after the prefix, and the mother's id is the one the prefix stored |
| StateSpaces.ActiveMotherClosed | src/parser/StateSpace.java:151-192 | for an active edge the mother edge ends closed |
| StateSpaces.MotherGlue | src/parser/StateSpace.java:177-192 | the mother stays closed after the recursive adds |
| StateSpaces.NewClosed | src/parser/StateSpace.java:146-197 | every edge the add creates ends closed |
| StateSpaces.NewTail | src/parser/StateSpace.java:130-141 | the one or two edges the prefix appends, and the ones after them, are closed |
| StateSpaces.ActiveNewClosed | src/parser/StateSpace.java:169-193 | every edge the active branch creates ends closed |
| StateSpaces.NewGlue | src/parser/StateSpace.java:172-178 | the edges created by the two recursive adds end closed |
| StateSpaces.AddEdgeKeepsClosed | src/parser/StateSpace.java:146-197 | adding an edge to a closed space leaves it closed, with distinct edges |
| StateSpaces.IsPassiveExact | src/parser/StateSpace.java:96-98 | in a closed space via is -1 exactly for daughterless edges, which are exactly the passive states; the others are exactly the active ones |
| StateSpaces.ReAddSame | src/parser/StateSpace.java:146-197 | re-adding a stored edge to a closed space changes nothing and returns its id |
| StateSpaces.ReAddPrefix | src/parser/StateSpace.java:148-162 | the same, for the first steps |
| StateSpaces.MarkMotherSame | src/parser/StateSpace.java:155-162 | recording a mother already recorded changes nothing |
| StateSpaces.ReAddActive | src/parser/StateSpace.java:169-193 | re-running the active branch on a closed space changes nothing |
| StateSpaces.SetViaSame | src/parser/StateSpace.java:173-174 | re-recording the via state changes nothing |
| StateSpaces.FinishSame | src/parser/StateSpace.java:179-192 | re-recording the to state and via map changes nothing |
| StateSpaces.StateSpace.constructor | src/parser/StateSpace.java:22-89 | a new space is empty and closed, with arrays of length 10 |
| StateSpaces.StateSpace.IncrementSize | src/parser/StateSpace.java:112-127 | the size goes up by one and each array doubles when its length reaches the size, keeping its entries |
| StateSpaces.StateSpace.StoreEdgeInIndex | src/parser/StateSpace.java:130-141 | the in-place store does what Store does |
| StateSpaces.StateSpace.RecordMother | src/parser/StateSpace.java:155-162 | the in-place update does what MarkMother does |
| StateSpaces.StateSpace.RecordPassive | src/parser/StateSpace.java:165-168 | the in-place update does what MarkPassive does |
| StateSpaces.StateSpace.RecordVia | src/parser/StateSpace.java:173-174 | the in-place update does what SetVia does |
| StateSpaces.StateSpace.RecordTo | src/parser/StateSpace.java:179-192 | the in-place update does what Finish does |
| StateSpaces.StateSpace.AddEdge | src/parser/StateSpace.java:146-197 | the in-place add leaves the space and returns the id AddEdgeF describes |
| StateSpaces.StateSpace.StorePair | src/parser/StateSpace.java:148-162 | the in-place first steps do what Prefix does |
| StateSpaces.StateSpace.AddActiveEdge | src/parser/StateSpace.java:169-193 | the in-place active branch does what AddActive does |
| StateSpaces.StateSpace.IsPassive | src/parser/StateSpace.java:96-98 | `via[state] == -1`: in a closed space a stored state is passive exactly when it is in the passive set; a slot past the size, still 0, is not passive |
| StateSpaces.StateSpace.IndexOfEdge | src/parser/StateSpace.java:73-80 | the index is the edge's id, and -1 exactly when it is not stored |
| Tries.Blank | src/util/Trie.java:25-31 | a new trie has no keys, no children, is not an end and holds the initial data |
| Tries.FindChild | src/util/Trie.java:39-46 | the scan over the keys returns the child of the first equal key, or none |
| Tries.FindTrie | src/util/Trie.java:54-67 | walking the elements one child at a time gives the sub-trie at that path, or none as soon as a child is missing |
| Tries.LookupAppend | src/util/Trie.java:54-67 | looking up `a + b` is looking up `b` below the sub-trie at `a` |
| Tries.LookupWf | src/util/Trie.java:54-67 | every sub-trie found is well formed |
| Tries.InsertChild | src/util/Trie.java:148-165 | an existing key returns its child with the trie unchanged; a new key is appended with a fresh child; earlier keys and children are kept |
| Tries.AppendChildWf | src/util/Trie.java:159-163 | appending a fresh key and child keeps the keys distinct |
| Tries.ReplaceChildWf | src/util/Trie.java:213-214 | replacing a child by a well-formed trie keeps the trie well formed |
| Tries.FindLast | src/util/Trie.java:159-163 | an appended key is found at the end |
| Tries.FindAppendOther | src/util/Trie.java:159-163 | appending one key does not move any other |
| Tries.Insert | src/util/Trie.java:201-215 | the recursive insert keeps the trie well formed |
| Tries.LookupBlank | src/util/Trie.java:25-31 | a new trie has no sub-tries, the initial data and no end |
| Tries.InsertPath | src/util/Trie.java:201-215 | after the insert every prefix of the key list exists, its data has been updated once more, and it is an end exactly when it is the whole list or was one before |
| Tries.InsertStep | src/util/Trie.java:213-214 | the insert descends into the child for the next element, a fresh one if it was missing |
| Tries.InsertStepOff | src/util/Trie.java:148-165 | the children under the other keys are untouched |
| Tries.InsertShape | src/util/Trie.java:148-165 | the keys gain the next element only when it is new, and the other children are kept |
| Tries.InsertKidsOff | src/util/Trie.java:148-165 | the children under the other keys are kept |
| Tries.InsertUnfold | src/util/Trie.java:201-215 | one level of the insert: update the data below the root, find or add the child, insert below it |
| Tries.KidsOff | src/util/Trie.java:148-165 | replacing one child keeps the others |
| Tries.InsertStop | src/util/Trie.java:206-210 | at the end of the list no child changes |
| Tries.InsertElsewhere | src/util/Trie.java:201-215 | a path that is not a prefix of the inserted list finds what it found before |
| Tries.NotPrefixTail | src/util/Trie.java:213-214 | a path that leaves the list after agreeing on its first element leaves the list's tail |
| Tries.Prepend | src/util/Trie.java:90-96 | each child suffix gets the child's key in front |
| Tries.SuffixesSound | src/util/Trie.java:75-100 | every suffix found is no longer than the depth (any length for -1) and ends at an end node |
| Tries.SuffixesFromSound | src/util/Trie.java:78-98 | the same, for the children from position i on |
| Tries.FindFirst | src/util/Trie.java:39-46 | with distinct keys the scan finds each key at its own position |
| Tries.SuffixesComplete | src/util/Trie.java:75-100 | every non-empty path to an end node within the depth is found |
| Tries.SuffixesFromComplete | src/util/Trie.java:78-98 | the same, for the children from position i on |
| ValueTries.Empty | src/util/Trie.java:25-31 | a new trie holds values at end nodes only |
| ValueTries.InsertValues | src/util/Trie.java:189-215 | inserting values keeps the trie well formed |
| ValueTries.Append | src/util/Trie.java:174-178 | appending a value makes it the last of the key list's values, after the earlier ones |
| ValueTries.GetFirstValue | src/util/Trie.java:110-140 | the first value is returned exactly when the key list ends at a node with values; a list that is not a stored key gives null; an end node with no values fails as `get(0)` does |
| ValueTries.InsertFound | src/util/Trie.java:201-215 | after inserting, the key list's values are the earlier ones followed by the new ones |
| ValueTries.InsertElsewhere | src/util/Trie.java:201-215 | the values of every other key list are unchanged |
| ValueTries.InsertEndsOnly | src/util/Trie.java:206-210 | values are only ever stored at end nodes |
| ValueTries.EmptyTrieExample | src/test/TrieTest.java:16-23 | an empty trie has no first value for `one` or the empty word; after appending `one` it has, and `t` still has none |
| ValueTries.PrefixOnlyExample | src/test/TrieTest.java:25-39 | a strict prefix of a stored key has no value while the stored keys do |
| SurprisalTries.Empty | src/utility/TrieSurprisal.java:37-46 | a new surprisal trie has empty prefix and complete maps and no children |
| SurprisalTries.AddPair | src/utility/TrieSurprisal.java:70-82 | the tag's score is added to its current score, or stored when absent; other tags are unchanged |
| SurprisalTries.AddPairs | src/utility/TrieSurprisal.java:98-102 | the tags gain exactly the pairs' tags |
| SurprisalTries.InsertScores | src/utility/TrieSurprisal.java:91-115 | the insert keeps the trie well formed |
| SurprisalTries.Append | src/utility/TrieSurprisal.java:91-115 | after appending a pair the complete map of the key list has it added |
| SurprisalTries.InsertOnPath | src/utility/TrieSurprisal.java:91-115 | every non-empty prefix of the key list has the pairs added to its prefix map, and the complete maps of the strict prefixes are unchanged |
| SurprisalTries.InsertAtEnd | src/utility/TrieSurprisal.java:104-110 | the key list ends at an end node whose complete map has the pairs added |
| SurprisalTries.RootPrefixStays | src/utility/TrieSurprisal.java:96-102 | the root's prefix map is never updated |
| SurprisalTries.InsertElsewhere | src/utility/TrieSurprisal.java:117-133 | the maps of a path that is not a prefix of the key list are unchanged |
| SurprisalTries.AppendTwice | src/utility/TrieSurprisal.java:70-82 | appending the same pair twice adds twice its score on every prefix and at the end |
| SurprisalTries.RawScoresExample | src/test/TrieSurprisalTest.java:15-42 | after appending `one`/X 1, `only`/Y 2 and `one`/X 1 without log scores, `o` has prefix {X 2, Y 2}, `one` ends with {X 2} and `onl` has prefix {Y 2} |
| SurprisalTries.RawFirstAppend | src/test/TrieSurprisalTest.java:29-32 | the maps after the first append |
| SurprisalTries.RawSecondAppend | src/test/TrieSurprisalTest.java:34-37 | the maps after the second append |
| SurprisalTries.RawThirdAppend | src/test/TrieSurprisalTest.java:39-42 | the maps after the third append |
| SurprisalTries.RawSums | src/test/TrieSurprisalTest.java:39-42 | the sums the third append makes |
| Signatures.ScanFlags | src/parser/SmoothLexicon.java:185-201 | the three flags say whether the word has a digit, a non-digit and a lower-case letter |
| Signatures.Classify | src/parser/SmoothLexicon.java:202-229 | the case mark is `-ALLC` for a capitalised word without lower case, `-INIT` for one with, never `-UC`, `-LC` for an uncapitalised word with lower case; `-DASH` exactly when there is a dash; `-NUM` for all digits, `-DIG` for digits mixed with others; the lower-cased last character exactly for digit-free words longer than 3 |
| Signatures.Render | src/parser/SmoothLexicon.java:180 | a signature starts with `UNK` |
| Signatures.RenderFlat | src/parser/SmoothLexicon.java:202-232 | the parts are appended in the order case, dash, number, last character |
| Signatures.Signature | src/parser/SmoothLexicon.java:176-233 | every signature starts with `UNK` |
| Signatures.Split | src/parser/SmoothLexicon.java:202-232 | a concatenation splits back into its parts |
| Signatures.ParseNumRender | src/parser/SmoothLexicon.java:218-229 | the number part and the last character can be read back from the signature's tail |
| Signatures.ParseDashRender | src/parser/SmoothLexicon.java:215-217 | the dash mark can be read back |
| Signatures.ParseCaseRender | src/parser/SmoothLexicon.java:202-213 | the case mark can be read back |
| Signatures.ParseRender | src/parser/SmoothLexicon.java:176-233 | a signature determines the word's shape: reading it back gives the same case, dash, number and last character |
| Signatures.SameSignatureSameShape | src/parser/SmoothLexicon.java:176-233 | two words with the same signature have the same shape |
| Signatures.NoUpperMark | src/parser/SmoothLexicon.java:206-210 | `-UC` never appears, since `loc` is always 0 |
| Signatures.GetSignature | src/parser/SmoothLexicon.java:176-233 | the character loop and the appends build the signature Signature describes |
| Signatures.LowerSignature | src/parser/SmoothLexicon.java:211-213 | the signature of `cbb` is `UNK-LC` |
| Signatures.DigitSignature | src/parser/SmoothLexicon.java:218-223 | the signature of `c12` is `UNK-LC-DIG` |
| SmoothLexicons.Bump | src/parser/SmoothLexicon.java:129-132 | incrementing a count adds the word to the counter's keys |
| SmoothLexicons.CountTableCounts | src/parser/SmoothLexicon.java:124-133 | after the count loop a tag has a counter exactly when it occurs, and each word's count under a tag is the number of its occurrences with that tag |
| SmoothLexicons.LinkTableLinks | src/parser/SmoothLexicon.java:134-139 | after the loop a word lists exactly its tagged occurrences |
| SmoothLexicons.AddAll | src/parser/SmoothLexicon.java:93 | `addAll` adds the counts key by key |
| SmoothLexicons.SmoothStart | src/parser/SmoothLexicon.java:79-92 | before the singleton scan there are no singletons, no signature counts and no new links |
| SmoothLexicons.SmoothLinksNone | src/parser/SmoothLexicon.java:72-73 | before the tag loop `UNKNOWN` lists no tags |
| SmoothLexicons.SmoothTableNone | src/parser/SmoothLexicon.java:75 | before the tag loop no counter has changed |
| SmoothLexicons.SmoothTableStep | src/parser/SmoothLexicon.java:75-96 | one tag iteration smooths that tag's counter and only it |
| SmoothLexicons.SinglesInAdd | src/parser/SmoothLexicon.java:81 | a word is a singleton exactly when its count is 1 |
| SmoothLexicons.WithSigAdd | src/parser/SmoothLexicon.java:82-84 | the number of singletons with a signature grows by one for each new one that has it |
| SmoothLexicons.SigCounterAdd | src/parser/SmoothLexicon.java:82-84 | each singleton increments its signature's count |
| SmoothLexicons.SigLinksAdd | src/parser/SmoothLexicon.java:86-90 | each singleton links its signature to the tag |
| SmoothLexicons.TaggedAdd | src/parser/SmoothLexicon.java:97 | linking one more tag adds one tagged word |
| SmoothLexicons.SmoothLinksAt | src/parser/SmoothLexicon.java:72-97 | after smoothing, a word's tags are the ones it had (none for `UNKNOWN`) plus every tag for which it is `UNKNOWN` or a singleton's signature |
| SmoothLexicons.LinkedTagsAdd | src/parser/SmoothLexicon.java:86-97 | one more tag is linked to `UNKNOWN` and to its singletons' signatures |
| SmoothLexicons.TagLinksAt | src/parser/SmoothLexicon.java:86-97 | one tag's iteration adds that tag to `UNKNOWN` and to its singletons' signatures |
| SmoothLexicons.SmoothLinksStepAt | src/parser/SmoothLexicon.java:75-97 | the same, word by word |
| SmoothLexicons.SmoothLinksStep | src/parser/SmoothLexicon.java:75-97 | one tag iteration is one TagLinks step, whatever the order of the tags |
| SmoothLexicons.SmoothLinksStepKeys | src/parser/SmoothLexicon.java:75-97 | the words listed after one tag iteration are the ones TagLinks lists |
| SmoothLexicons.SameMaps | src/parser/SmoothLexicon.java:75-97 | maps with the same keys and values are equal |
| SmoothLexicons.SigCounterCount | src/parser/SmoothLexicon.java:79-92 | a signature's count is the number of singletons that have it |
| SmoothLexicons.SmoothCounterCount | src/parser/SmoothLexicon.java:79-96 | a smoothed count is the raw count, plus the number of singletons whose signature is the word, plus 1 for `UNKNOWN`; the keys gain the signatures and `UNKNOWN` |
| SmoothLexicons.SmoothCounterAtLeastOne | src/parser/SmoothLexicon.java:93-96 | every smoothed count is at least 1, and `UNKNOWN` is counted |
| SmoothLexicons.CountTableAtLeastOne | src/parser/SmoothLexicon.java:129-132 | every raw count is at least 1 |
| SmoothLexicons.UnknownLinksEveryTag | src/parser/SmoothLexicon.java:97 | after smoothing `UNKNOWN` lists every tag |
| SmoothLexicons.SmoothLinksKeep | src/parser/SmoothLexicon.java:86-97 | smoothing never removes a word's tag |
| SmoothLexicons.SmoothLexicon.constructor | src/parser/SmoothLexicon.java:19-21 | a new lexicon has empty maps |
| SmoothLexicons.SmoothLexicon.TagsForWord | src/parser/SmoothLexicon.java:23-36 | a word not in the map has no tags |
| SmoothLexicons.SmoothLexicon.Score | src/parser/SmoothLexicon.java:38-60 | scoring fails exactly for an unknown tag; otherwise the word's count, else its signature's count, else the `UNKNOWN` count (0 when missing) |
| SmoothLexicons.SmoothLexicon.CountOne | src/parser/SmoothLexicon.java:128-132 | one count increment on the tag's counter |
| SmoothLexicons.SmoothLexicon.Link | src/parser/SmoothLexicon.java:134-138 | the word lists the tagged word |
| SmoothLexicons.SmoothLexicon.CountSingleton | src/parser/SmoothLexicon.java:80-92 | one word iteration of the singleton scan |
| SmoothLexicons.SmoothLexicon.ScanTag | src/parser/SmoothLexicon.java:79-92 | the singleton scan of one tag builds its signature counter and links |
| SmoothLexicons.SmoothLexicon.SmoothTag | src/parser/SmoothLexicon.java:76-97 | one tag iteration leaves the smoothed counter and links |
| SmoothLexicons.SmoothLexicon.SmoothNext | src/parser/SmoothLexicon.java:75-114 | the loop invariant advances by one tag |
| SmoothLexicons.SmoothLexicon.Smooth | src/parser/SmoothLexicon.java:69-115 | smoothing leaves every counter smoothed and the links of SmoothLinks |
| SmoothLexicons.SmoothLexicon.SmoothTags | src/parser/SmoothLexicon.java:75-114 | the tag loop smooths every tag |
| SmoothLexicons.SmoothLexicon.Train | src/parser/SmoothLexicon.java:117-143 | training leaves the smoothed counts and links of the data |
| SmoothLexicons.TrainedWordTags | src/parser/SmoothLexicon.java:117-143 | after training every seen word lists each tag it was seen with |
| SmoothLexicons.TrainedScore | src/parser/SmoothLexicon.java:38-60 | after training a score exists exactly for the tags of the data, and is at least 1 |
| MeasureTables.SumAppend | src/parser/Measures.java:112-123 | the sum of a list with one more value grows by that value |
| MeasureTables.ZerosTotal | src/parser/Measures.java:63-69 | a list of zeros sums to 0 |
| MeasureTables.Zeros | src/parser/Measures.java:64-67 | the list has numWords + 1 zeros |
| MeasureTables.Measures.constructor | src/parser/Measures.java:50-57 | every objective gets an empty list, no log measures and no compression |
| MeasureTables.Measures.WithWords | src/parser/Measures.java:59-70 | every objective gets numWords + 1 zeros |
| MeasureTables.Measures.SetAutoCompressSize | src/parser/Measures.java:72-74 | only the compression size changes |
| MeasureTables.Measures.AddMeasures | src/parser/Measures.java:76-84 | the objectives are added, or replaced, with numWords + 1 zeros; others are kept |
| MeasureTables.Measures.NumValues | src/parser/Measures.java:86-88 | the length of the objective's list |
| MeasureTables.Measures.AddLogMeasure | src/parser/Measures.java:90-92 | the measure joins the log measures |
| MeasureTables.Measures.GetSentList | src/parser/Measures.java:94-101 | the list without its position 0, in order |
| MeasureTables.Measures.Compress | src/parser/Measures.java:112-123 | a one-element list holding the sum, or the log-sum for a log measure |
| MeasureTables.Measures.AddValue | src/parser/Measures.java:103-110 | the value is appended and the list compressed when it reaches the compression size; a raw measure's total grows by the value |
| MeasureTables.Measures.SetValue | src/parser/Measures.java:124-126 | one position of one list changes |
| MeasureTables.Measures.GetTotalValue | src/parser/Measures.java:132-136 | the total is the (log-)sum, and the stored list is the compression of the compressed list |
| MeasureTables.Measures.AddEntropy | src/parser/Measures.java:163-165 | adds to the entropy list |
| MeasureTables.Measures.GetEntropy | src/parser/Measures.java:167-169 | reads the entropy list |
| MeasureTables.AddValueKeepsTotal | src/parser/Measures.java:103-123 | with or without compression, a raw list's total grows by the added value |
| EarleyParsers.TriFormula | src/parser/EarleyParser.java:1721-1723 | `(right+1)*right/2` is the triangular number of right, with no remainder lost |
| EarleyParsers.TriMonotone | src/parser/EarleyParser.java:1721-1723 | triangular numbers grow with right |
| EarleyParsers.LinearBlock | src/parser/EarleyParser.java:1721-1723 | the cells ending at right take the block from Tri(right) up to, not including, Tri(right+1) |
| EarleyParsers.LinearBlockFull | src/parser/EarleyParser.java:1721-1723 | every index of that block is the linear index of exactly one cell `[left, right]` |
| EarleyParsers.LinearInjective | src/parser/EarleyParser.java:1721-1723 | two cells with the same linear index are the same cell |
| EarleyParsers.LinearEnd | src/parser/EarleyParser.java:1749 | `linear(0, numWords+1) == (numWords+4)*(numWords+1)/2`, the assertion sentInit makes |
| EarleyParsers.LinearMax | src/parser/EarleyParser.java:1744-1749 | no cell up to numWords+1 has a larger index than `[0, numWords+1]` |
| EarleyParsers.Wrap32 | src/parser/EarleyParser.java:1744 | 32-bit wrap-around keeps a value in int range and leaves an int unchanged |
| EarleyParsers.JavaDiv | src/parser/EarleyParser.java:1744 | Java's truncating division agrees with Dafny's on non-negative operands |
| EarleyParsers.GuardAsWrittenNeverFires | src/parser/EarleyParser.java:1744-1748 | the product is computed in int before it is widened, so the `numCells > Integer.MAX_VALUE` guard can never fire |
| EarleyParsers.GuardAsWrittenMisses | src/parser/EarleyParser.java:1744-1748 | for 65534 words the as-written value is 32767 while `linear(0, 65535)` is beyond the int range |
| EarleyParsers.LinearInRange | src/parser/EarleyParser.java:1744-1749 | every cell index up to numWords, computed without wrap-around, is below the number of cells |
| EarleyParsers.LinearAsWrittenExact | src/parser/EarleyParser.java:1721-1723 | `linear` in `int` arithmetic gives the cell number while `(right+1)*right` fits in an `int`, that is up to right = 46340 |
| EarleyParsers.LinearAsWrittenWraps | src/parser/EarleyParser.java:1721-1723 | a sentence of 46341 words passes the 64-bit guard, yet `linear(0, 46341)` in `int` arithmetic is negative where the cell number fits in an `int` |
| EarleyParsers.TooManyCellsIffOverflow | src/parser/EarleyParser.java:1744-1748 | with the product computed in 64 bits, the guard rejects a sentence exactly when some cell index, computed without wrap-around, would exceed the int range |
| EarleyParsers.Add | src/parser/EarleyParser.java:1708-1718 | the key's score grows by the added score, starting from 0 when missing; other keys are unchanged |
| EarleyParsers.AddScore | src/parser/EarleyParser.java:1708-1718 | a null map is left null; otherwise the same as Add |
| EarleyParsers.SumForSnoc | src/parser/EarleyParser.java:1708-1718 | the sum of one more pair's score for a key |
| EarleyParsers.AddEachSums | src/parser/EarleyParser.java:1708-1718 | adding a list of scores leaves each key's total plus the sum of its scores, and the key is present exactly when it was or some pair names it |
| EarleyParsers.AddTo | src/parser/EarleyParser.java:895-900 | the value joins the key's set, created when missing; other keys are unchanged |
| EarleyParsers.CompletedCells | src/parser/EarleyParser.java:895-903 | after recording completed edges, the cell of `[left, right]` holds exactly the edges recorded with that span |
| EarleyParsers.EdgesAtLast | src/parser/EarleyParser.java:895-903 | the last record adds its edge to its own span only |
| EarleyParsers.KeepBest | src/parser/EarleyParser.java:1217-1232 | the new backtrack is stored when the edge has none or a smaller parent inner score; otherwise the old one stays, so the kept score is the larger |
| EarleyParsers.OfferedIsFirstBest | src/parser/EarleyParser.java:1217-1232 | after a series of offers the kept backtrack is the first one with the highest score |
| EarleyParsers.ScaleProductFrame | src/parser/EarleyParser.java:1680-1695 | the product depends only on the one-word factors of the span |
| EarleyParsers.CacheKeepsConsistent | src/parser/EarleyParser.java:1688-1693 | caching the product keeps every cached span equal to the product of its one-word factors |
| EarleyParsers.EmptyRows | src/parser/EarleyParser.java:1803-1813 | one empty map for each position 0 .. numWords |
| EarleyParsers.EmptyInfo | src/parser/EarleyParser.java:1803-1813 | the loop builds those rows |
| EarleyParsers.EarleyParser.constructor | src/parser/EarleyParser.java:163-205 | the parser keeps its options, word index and measure names, and starts with no sentence and empty records |
| EarleyParsers.EarleyParser.InternWords | src/parser/EarleyParser.java:1737-1741 | each word's index names that word, and the word index only grows |
| EarleyParsers.EarleyParser.SentInit | src/parser/EarleyParser.java:1728-1824 | initialisation succeeds exactly for a non-empty sentence whose cells fit in an int; the words are interned, the prefix scores are 1 then 0s, every measure has numWords + 1 zeros, and each record the options ask for is reset |
| EarleyParsers.EarleyParser.StartMeasures | src/parser/EarleyParser.java:1751-1797 | fresh measures with numWords + 1 zeros and prefix scores 1, 0, ..., 0 |
| EarleyParsers.EarleyParser.ResetRecords | src/parser/EarleyParser.java:1754-1824 | the scaling map, completed edges, edge infos and backtrack chart are reset exactly when their options ask for them |
| EarleyParsers.EarleyParser.ResetMaps | src/parser/EarleyParser.java:1754-1824 | the scaling map, completed edges and backtrack chart are reset by their options |
| EarleyParsers.EarleyParser.ResetEdgeInfo | src/parser/EarleyParser.java:1803-1813 | the active and fragment edge infos are reset by their flags |
| EarleyParsers.EarleyParser.ParseSentence | src/parser/EarleyParser.java:363-369 | the sentence is split on whitespace runs and initialised as SentInit says |
| EarleyParsers.EarleyParser.AddCompletedEdges | src/parser/EarleyParser.java:895-903 | the edge joins the cell's completed set |
| EarleyParsers.EarleyParser.AddActiveEdgeInfo | src/parser/EarleyParser.java:905-912 | left joins the edge's set in the row of right |
| EarleyParsers.EarleyParser.AddFragmentEdgeInfo | src/parser/EarleyParser.java:914-921 | the edge joins left's set in the row of right |
| EarleyParsers.EarleyParser.AddBacktrack | src/parser/EarleyParser.java:1217-1232 | the cell keeps the best backtrack, as KeepBest says |
| EarleyParsers.EarleyParser.GetScaling | src/parser/EarleyParser.java:1680-1695 | an empty span scales by 1; a cached span returns its entry; otherwise the product of the one-word factors is computed and cached; a consistent cache stays consistent |
| EarleyParsers.EarleyParser.GetScalingFor | src/parser/EarleyParser.java:1697-1703 | `outside`, in any case, scales by the factors of `[0, left]` and `[right, numWords]`; any other kind by those of the span |
| SparseCharts.Count | src/parser/EarleyParserSparse.java:166-172 | the count is the number of edges in the cell, 0 when it is missing |
| SparseCharts.CountAgrees | src/parser/EarleyParserSparse.java:161-181 | the listed edges are the contained ones, and the count is 0 exactly when none is |
| SparseCharts.CountGrows | src/parser/EarleyParserSparse.java:70-72 | a new edge adds one to the cell's size |
| SparseCharts.StoreProbs | src/parser/EarleyParserSparse.java:139-148 | each edge with a non-empty list gets its current score plus the list's sum; other edges are unchanged |
| SparseCharts.SparseChart.constructor | src/parser/EarleyParserSparse.java:26-40 | the charts start empty |
| SparseCharts.SparseChart.SentInit | src/parser/EarleyParserSparse.java:41-51 | the forward and inner charts are emptied, so every score reads 0 |
| SparseCharts.SparseChart.InitOuterProbs | src/parser/EarleyParserSparse.java:54-56 | the outer chart is emptied |
| SparseCharts.SparseChart.ForwardScore | src/parser/EarleyParserSparse.java:266-278 | a missing cell or edge scores 0 |
| SparseCharts.SparseChart.InnerScore | src/parser/EarleyParserSparse.java:294-305 | a missing cell or edge scores 0 |
| SparseCharts.SparseChart.OuterScore | src/parser/EarleyParserSparse.java:320-332 | a missing cell or edge scores 0 |
| SparseCharts.SparseChart.InsideChartCount | src/parser/EarleyParserSparse.java:166-172 | the number of inside edges of the cell, 0 exactly when it has none |
| SparseCharts.SparseChart.ListInsideEdges | src/parser/EarleyParserSparse.java:175-181 | exactly the contained inside edges |
| SparseCharts.SparseChart.OutsideChartCount | src/parser/EarleyParserSparse.java:190-196 | the number of outside edges of the cell, 0 exactly when it has none |
| SparseCharts.SparseChart.ListOutsideEdges | src/parser/EarleyParserSparse.java:199-205 | exactly the contained outside edges |
| SparseCharts.SparseChart.AddToChart | src/parser/EarleyParserSparse.java:62-73 | a new edge gets its forward score and the count grows by one; both cells are created together when missing; the call fails (`NullPointerException`) exactly when the forward cell exists without an inner cell, which `addForwardScore` leaves behind, and then only the forward score is stored; otherwise the inner score is stored too |
| SparseCharts.SparseChart.AddForwardScore | src/parser/EarleyParserSparse.java:280-288 | one forward score grows by the added score and no other changes |
| SparseCharts.SparseChart.AddInnerScore | src/parser/EarleyParserSparse.java:307-315 | one inner score grows by the added score and no other changes |
| SparseCharts.SparseChart.AddOuterScore | src/parser/EarleyParserSparse.java:334-342 | one outer score grows by the added score and no other changes |
| SparseCharts.SparseChart.InitPredictTmpScores | src/parser/EarleyParserSparse.java:216-219 | the prediction holding maps are emptied |
| SparseCharts.SparseChart.AddPredictTmpForwardScore | src/parser/EarleyParserSparse.java:222-224 | the predicted forward score of the edge grows by the score |
| SparseCharts.SparseChart.AddPredictTmpInnerScore | src/parser/EarleyParserSparse.java:227-229 | the predicted inner score of the edge is replaced, not added to |
| SparseCharts.SparseChart.StorePredictTmpScores | src/parser/EarleyParserSparse.java:233-239 | the cell `[right, right]` is replaced by the predictions and no other cell changes |
| SparseCharts.SparseChart.InitCompleteTmpScores | src/parser/EarleyParserSparse.java:77-80 | the completion holding maps are emptied |
| SparseCharts.SparseChart.InitCompleteTmpScoresFor | src/parser/EarleyParserSparse.java:246-251 | an edge without lists gets two empty ones; one with lists keeps them |
| SparseCharts.SparseChart.AddCompleteTmpForwardScore | src/parser/EarleyParserSparse.java:254-256 | the score is appended to the edge's forward list |
| SparseCharts.SparseChart.AddCompleteTmpInnerScore | src/parser/EarleyParserSparse.java:259-261 | the score is appended to the edge's inner list |
| SparseCharts.SparseChart.StoreCompleteTmpScores | src/parser/EarleyParserSparse.java:84-93 | each forward score grows by the sum of its list, and an edge is in the cell afterwards exactly when it was or has a non-empty list; the call fails (`NullPointerException`) exactly when the forward cell exists without an inner cell and some inner list is non-empty (`storeProbs` reads the missing map), leaving the inner chart unchanged; otherwise each inner score grows by the sum of its list (starting over when the forward cell was missing); no other cell changes |
| DenseCharts.CountTrueSize | src/parser/EarleyParserDense.java:265-278 | the number of `true` entries is the size of the set of edges they mark |
| DenseCharts.CountTrueSet | src/parser/EarleyParserDense.java:253-263 | marking one unmarked edge adds one to the count |
| DenseCharts.CountTrueZero | src/parser/EarleyParserDense.java:282-292 | the count is 0 exactly when no edge is marked |
| DenseCharts.Falses | src/parser/EarleyParserDense.java:43-62 | a fresh entry row has one unmarked slot per edge |
| DenseCharts.ZeroScores | src/parser/EarleyParserDense.java:43-62 | a fresh score row has one 0 per edge |
| DenseCharts.ZeroRows | src/parser/EarleyParserDense.java:43-62 | a fresh chart has a row of zeros per cell |
| DenseCharts.Or | src/parser/EarleyParserDense.java:265-278 | position by position, an edge is marked in the union exactly when it is marked in either row |
| DenseCharts.OrEdges | src/parser/EarleyParserDense.java:265-278 | the edges of the union are the union of the edges |
| DenseCharts.BooleanUnion | src/parser/EarleyParserDense.java:265-278 | the loop returns the union and the number of edges in it |
| DenseCharts.Stored | src/parser/EarleyParserDense.java:240-247 | an edge with a non-empty list gets its score plus the list's sum; the other edges keep theirs |
| DenseCharts.StoredAddsSums | src/parser/EarleyParserDense.java:240-247 | each score grows by exactly the sum of its list |
| DenseCharts.StoreProbs | src/parser/EarleyParserDense.java:240-247 | the row at index becomes the stored row and no other row changes |
| DenseCharts.Empties | src/parser/EarleyParserDense.java:308-310 | one empty list per edge |
| DenseCharts.PredictsIff | src/parser/EarleyParserDense.java:115-140 | an edge predicts a state exactly when one of its predictions names it |
| DenseCharts.PredictionStep | src/parser/EarleyParserDense.java:120-139 | one more prediction marks its state, adds forward times its multiplier to that state's gain, and makes its inner multiplier the last one |
| DenseCharts.GainNone | src/parser/EarleyParserDense.java:115-140 | a state no prediction names gains nothing |
| DenseCharts.LastInnerIsLast | src/parser/EarleyParserDense.java:133-134 | the inner score of a predicted state is the multiplier of its last prediction, since later ones overwrite earlier ones; an unpredicted state keeps its score |
| DenseCharts.DenseChart.constructor | src/parser/EarleyParserDense.java:43-62 | every cell starts with no edges, count 0 and zero scores; the outer chart exists exactly when inside-outside is on |
| DenseCharts.DenseChart.ChartCount | src/parser/EarleyParserDense.java:288-292 | the stored count is the number of edges in the cell, 0 exactly when the cell holds none |
| DenseCharts.DenseChart.ListEdges | src/parser/EarleyParserDense.java:294-302 | exactly the edges in the cell, as many as the count |
| DenseCharts.DenseChart.AddToEntry | src/parser/EarleyParserDense.java:334-340 | one score of one row grows by the score; nothing else changes |
| DenseCharts.DenseChart.AddForwardScore | src/parser/EarleyParserDense.java:334-340 | one forward score grows by the added score and no other changes |
| DenseCharts.DenseChart.AddInnerScore | src/parser/EarleyParserDense.java:346-352 | one inner score grows by the added score and no other changes |
| DenseCharts.DenseChart.AddOuterScore | src/parser/EarleyParserDense.java:359-362 | one outer score grows by the added score and no other changes |
| DenseCharts.DenseChart.AddToChart | src/parser/EarleyParserDense.java:253-263 | a new edge is marked with its two scores, the count grows by one, and no other cell changes |
| DenseCharts.DenseChart.InitPredicted | src/parser/EarleyParserDense.java:74-81 | the holding rows start unmarked with zero scores |
| DenseCharts.DenseChart.PredictOne | src/parser/EarleyParserDense.java:121-134 | one prediction marks its state, adds to its forward score and overwrites its inner score |
| DenseCharts.DenseChart.PredictFromEdge | src/parser/EarleyParserDense.java:115-140 | every state predicted by the edge is marked, gains the forward score times its multipliers, and takes the last inner multiplier |
| DenseCharts.DenseChart.CellSpawnsIff | src/parser/EarleyParserDense.java:93-99 | a cell spawns a state exactly when some edge in it predicts that state |
| DenseCharts.DenseChart.SpawnsIff | src/parser/EarleyParserDense.java:84-100 | the cells ending at right spawn a state exactly when some edge in one of them predicts it |
| DenseCharts.DenseChart.CellNone | src/parser/EarleyParserDense.java:86-88 | an empty cell, which the loop skips, spawns nothing and changes no score |
| DenseCharts.DenseChart.PredictCell | src/parser/EarleyParserDense.java:93-99 | predicting from every edge of one cell marks what the cell spawns and adds its gains |
| DenseCharts.DenseChart.PredictCells | src/parser/EarleyParserDense.java:84-100 | after all cells ending at right, the holding rows are exactly what those cells spawn and gain |
| DenseCharts.DenseChart.PredictAll | src/parser/EarleyParserDense.java:74-113 | the cell `[right, right]` becomes what the cells ending at right predict, and no other cell changes |
| DenseCharts.DenseChart.PredictInto | src/parser/EarleyParserDense.java:74-100 | fresh holding rows receive every prediction of the cells ending at right |
| DenseCharts.DenseChart.StorePredicted | src/parser/EarleyParserDense.java:104-108 | the holding rows become the cell `[right, right]`, and no other cell changes |
| DenseCharts.DenseChart.InitCompleteTmp | src/parser/EarleyParserDense.java:155-158 | the completion holding rows start unmarked and with empty lists |
| DenseCharts.DenseChart.InitTmpScores | src/parser/EarleyParserDense.java:313-316 | the edge is marked in the holding row |
| DenseCharts.DenseChart.AddTmpForwardScore | src/parser/EarleyParserDense.java:318-321 | the score joins the edge's forward list, whose sum grows by it |
| DenseCharts.DenseChart.AddTmpInnerScore | src/parser/EarleyParserDense.java:323-326 | the score joins the edge's inner list, whose sum grows by it |
| DenseCharts.DenseChart.StoreCompleted | src/parser/EarleyParserDense.java:192-196 | the cell's edges become the union with the held ones, the count is the size of that union, each score grows by its list's sum, and no other cell changes |
| MarginalDecoders.TagSumRemove | src/decoder/MarginalDecoder.java:36-61 | a tag's total is one edge's share plus the total over the other edges |
| MarginalDecoders.TagSumNone | src/decoder/MarginalDecoder.java:36-61 | a tag that heads no completed edge totals 0 |
| MarginalDecoders.SumsByMotherStep | src/decoder/MarginalDecoder.java:42-58 | crediting one more edge keeps the map equal to the per-mother totals over the edges seen |
| MarginalDecoders.SumByMother | src/decoder/MarginalDecoder.java:36-61 | a tag is in the marginal map exactly when it heads a completed edge, and its value is the total of those edges' outer times inner scores |
| MarginalDecoders.ComputeMarginalMap | src/decoder/MarginalDecoder.java:36-61 | the map is as MarginalMap says over the edges with both scores, and as a side effect the cell's forward map loses every edge without an outer score |
| MarginalDecoders.RetainAll | src/decoder/MarginalDecoder.java:38-39 | the edges kept are exactly those in both sets, with their scores |
| MarginalDecoders.RetainAllLosesForward | src/decoder/MarginalDecoder.java:38-39 | an edge with a forward score but no outer score reads 0 forward after the call |
| MarginalDecoders.MarginalMap | src/decoder/MarginalDecoder.java:36-61 | the intended map: per-mother totals over the edges with forward and outer scores, leaving the chart unchanged |
| MarginalDecoders.Argmax | src/decoder/MarginalDecoder.java:63-79 | -1 exactly when no score is positive; otherwise a tag with the largest positive score, the first such in iteration order |
| MarginalDecoders.LastHash | src/decoder/MarginalDecoder.java:110-112 | the last `##` in the range, or -1 when there is none |
| MarginalDecoders.ScanStep | src/decoder/MarginalDecoder.java:98-117 | one word of the loop keeps the state: a cue after a `##` closes the open sentence there, a `##` becomes its last one, and the closed sentences still tile the words before the open one |
| MarginalDecoders.SocialSegments | src/decoder/MarginalDecoder.java:81-126 | fails exactly when some word is empty (`charAt(0)` throws); otherwise the sentences tile the words in order, each but the last closes at a cue after its `##`, and the last runs to the end with its last `##` |
| MarginalDecoders.ClosedAt | src/decoder/MarginalDecoder.java:100-108 | a cue word after a `##` closes the sentence before it |
| MarginalDecoders.LastHashStep | src/decoder/MarginalDecoder.java:110-112 | the last `##` moves to i exactly when word i is `##` |
| MarginalDecoders.OpenAt | src/decoder/MarginalDecoder.java:100-114 | a word that does not close the sentence keeps it open |
| MarginalDecoders.TilesSnoc | src/decoder/MarginalDecoder.java:103-107 | appending a sentence that starts where the last ended keeps the tiling |
| TreeBanks.RemovePseudoNode | src/util/TreeBankFile.java:133-144 | a unary pseudo node is replaced by its child; any other node keeps its label and number of children |
| TreeBanks.RemoveAll | src/util/TreeBankFile.java:140-142 | every child is rewritten in place, none added or dropped |
| TreeBanks.RemoveKeepsYield | src/util/TreeBankFile.java:133-144 | removing pseudo nodes never changes the words of the tree |
| TreeBanks.RemoveAllKeepsYield | src/util/TreeBankFile.java:140-142 | rewriting the children never changes their words |
| TreeBanks.RemoveWithoutPseudo | src/util/TreeBankFile.java:133-144 | a tree without pseudo nodes comes back unchanged |
| TreeBanks.RemoveAllWithoutPseudo | src/util/TreeBankFile.java:140-142 | children without pseudo nodes come back unchanged |
| TreeBanks.ExtractSentParses | src/util/TreeBankFile.java:147-161 | a sentence node is returned alone; every returned tree is a sentence |
| TreeBanks.ExtractAll | src/util/TreeBankFile.java:155-157 | every tree found under the children is a sentence |
| TreeBanks.ExtractedWithin | src/util/TreeBankFile.java:147-161 | every extracted sentence is a subtree of the input |
| TreeBanks.ExtractAllWithin | src/util/TreeBankFile.java:155-157 | every sentence found under the children is a subtree of one of them |
| TreeBanks.ExtractFindsSentences | src/util/TreeBankFile.java:147-161 | nothing is extracted exactly when the tree has no sentence node |
| TreeBanks.ExtractAllFindsSentences | src/util/TreeBankFile.java:155-157 | nothing is found under the children exactly when none has a sentence node |
| Utilities.Fact | src/util/Util.java:97-100 | a factorial is at least 1 |
| Utilities.PascalFactorial | src/util/Util.java:97-123 | the entries given by Pascal's rule are the binomial coefficients `n! / (i! (n-i)!)` |
| Utilities.PascalArith | src/util/Util.java:112 | the inductive step of Pascal's rule, with the factorials named |
| Utilities.WrapAdd | src/util/Util.java:112 | Java `int` addition wraps modulo 2^32, so wrapping each operand first gives the same entry |
| Utilities.WrapShift | src/util/Util.java:112 | adding a multiple of 2^32 does not change a wrapped value |
| Utilities.PascalEntry | src/util/Util.java:97-123 | every table entry is an `int`, and equals the binomial coefficient whenever that fits in an `int` |
| Utilities.PermutationMatrix | src/util/Util.java:97-123 | the table is (size+1) x (size+1) and each entry is the wrapped binomial coefficient, 0 above the diagonal |
| Utilities.FillRow | src/util/Util.java:111-113 | filling row n from row n-1 completes that row and leaves the rows below as seeded |
| Utilities.GetNonterminals | src/util/Util.java:124-139 | every key of the map, each once, in non-decreasing order of its value |
| Utilities.InsertByValue | src/util/Util.java:127-131 | inserting a key after every key with a value not larger keeps the list duplicate-free and sorted by value |
| Utilities.InsertAtKeepsKeys | src/util/Util.java:127-131 | the insertion adds exactly the new key to the list |
| Utilities.InsertAtKeepsOrder | src/util/Util.java:127-131 | the insertion point keeps the values in order |
| Utilities.Init | src/util/Util.java:226-230 | every slot of the array holds the value |
| Utilities.InitRows | src/util/Util.java:232-239 | every slot of every row holds the value |
| Utilities.Place | src/util/Util.java:53-78 | one rule is placed exactly when it is a tag rule or a terminal rule with words, and a single-word rule's (tag, word) pair is not already recorded |
| Utilities.CategorizeAllRules | src/util/Util.java:47-81 | the loop places the rules in order, stopping at the first failure, as PlaceAll says |
| Utilities.FailStays | src/util/Util.java:52-80 | once a rule fails, the later rules do not undo it |
| Utilities.PlaceAllSorts | src/util/Util.java:54-59 | on success the tag rules and the multi-word rules are appended in order, and every known (tag, word) pair stays known |
| Utilities.PlaceAllLexicon | src/util/Util.java:60-78 | on success every rule had a kind the loop accepts, and each single-word rule's probability is recorded under its tag and its tag under its word |
| Utilities.PlaceAllRejects | src/util/Util.java:57 | a rule of any other kind makes the whole call fail |
| Utilities.ResultLines | src/util/Util.java:219-221 | one `token value` line per token |
| Utilities.OutputSentenceResult | src/util/Util.java:216-224 | the output is one line per whitespace-separated token with its result, then `#! Done`; it fails exactly when there are fewer results than tokens |
| Utilities.OutputLines | src/util/Util.java:216-224 | read back line by line, the output gives each token's line and the closing line |
| PosFiles.SplitTagged | src/parser/Main.java:382-395 | when the token matches `(.+)_(.+)`, the word and the tag are non-empty and join back to the token with `_` |
| PosFiles.LastUnderscore | src/parser/Main.java:388-395 | the last `_` before end that has a character before it, or none |
| PosFiles.SplitTaggedAtLast | src/parser/Main.java:388-395 | the greedy first group splits at the last possible `_`; a token without one in the inner positions does not match |
| PosFiles.SplitTaggedRoundTrip | src/parser/Main.java:388-395 | a word and a tag without `_`, joined by `_`, split back into themselves |
| PosFiles.WordsOf | src/parser/Main.java:394 | one word per token |
| PosFiles.AddPairsMeaning | src/parser/Main.java:397-405 | after the pairs are added, a word has exactly its old tags and the tags it was paired with |
| PosFiles.ProcessPOSFile | src/parser/Main.java:377-417 | processing fails exactly when some token does not match; otherwise the text is each line's words joined by spaces and the lexicon gains every pair |
| PosFiles.LinesStep | src/parser/Main.java:383-414 | one more line appends its text and its pairs |
| PosFiles.AddPairsAppend | src/parser/Main.java:397-405 | adding two runs of pairs is adding one after the other |
| PosFiles.ProcessLine | src/parser/Main.java:384-413 | a line is accepted exactly when all its tokens match; then its text and pairs are as the specification functions say |
| PosFiles.AddTag | src/parser/Main.java:397-405 | a new word gets a one-tag set; a known word's set gains the tag |
| PosFiles.TokenStep | src/parser/Main.java:387-413 | one more token appends its pair and its word, and the last token ends the line with a newline |
| PosFiles.AddPairsSnoc | src/parser/Main.java:397-405 | one more pair adds its tag to its word's set |
| PosFiles.LineTextIsJoin | src/parser/Main.java:407-412 | a line's text is its words joined by single spaces, then a newline |
| PosFiles.LineTextRoundTrip | src/parser/Main.java:384-412 | splitting a line's text on whitespace gives back the words of its tokens |
| PosFiles.WordHasNoSpace | src/parser/Main.java:384-394 | the word of a tagged token is non-empty and has no whitespace |
| ParserGenerators.TrailingSpaces | src/parser/EarleyParserGenerator.java:139 | the length of the whitespace run that ends a string |
| ParserGenerators.TrimAroundCommas | src/parser/EarleyParserGenerator.java:139 | no piece keeps whitespace next to a comma, and a piece without whitespace is unchanged |
| ParserGenerators.Trimmed | src/parser/EarleyParserGenerator.java:139 | one piece with the whitespace next to its commas removed |
| ParserGenerators.SplitMeasures | src/parser/EarleyParserGenerator.java:139 | no measure name contains a comma |
| ParserGenerators.MeasureListRoundTrip | src/parser/EarleyParserGenerator.java:137-141 | a comma-separated list of names without spaces splits back into the names |
| ParserGenerators.CommaInJoin | src/parser/EarleyParserGenerator.java:139 | two or more names joined by commas contain a comma |
| ParserGenerators.TrimKeeps | src/parser/EarleyParserGenerator.java:139 | pieces without whitespace are not trimmed |
| ParserGenerators.InternalNeeded | src/parser/EarleyParserGenerator.java:146-166 | some internal measure is needed exactly when an output measure other than string probability, surprisal and prefix is asked for |
| ParserGenerators.InternalMeasures | src/parser/EarleyParserGenerator.java:146-158 | the loop collects exactly the internal measures: entropy for entropy or entropy reduction, any other measure as itself, except the three prefix measures |
| ParserGenerators.CollectMeasures | src/parser/EarleyParserGenerator.java:137-141 | the set holds exactly the pieces of the measure string |
| ParserGenerators.RootIndexes | src/parser/EarleyParserGenerator.java:179-187 | the start symbol gets tag id 0 and nonterminal number 0, and the root symbol id 1, or 0 when it is the start symbol itself |
| ParserGenerators.FirstRule | src/parser/EarleyParserGenerator.java:198-199 | the root rule added to an empty table gets id 0 and is its only rule |
| ParserGenerators.RootRuleSet | src/parser/EarleyParserGenerator.java:198-199 | a fresh table holding only the root rule |
| ParserGenerators.ParserOptions.constructor | src/parser/EarleyParserOptions.java:20-37 | the options start with scaling on, plain probabilities, no induction, no decoding and no root symbol (`null`) |
| ParserGenerators.ParserOptions.SetRoot | src/parser/EarleyParserGenerator.java:184-195 | the start and root ids are stored and the root rule connects them |
| ParserGenerators.ParserOptions.SetOptions | src/parser/EarleyParserGenerator.java:117-135 | the options are copied; `em` and `vb`, in any case, set induction 1 and 2; `viterbi` sets decoding 1 and `marginal` or `socialmarginal` set 2; anything else keeps the old value |
| ParserGenerators.RootRule | src/parser/EarleyParserGenerator.java:189-195 | the unary rule from the start symbol to the root with probability 1, with bias 1 only under VB |
| ParserGenerators.EarleyParserGenerator.constructor | src/parser/EarleyParserGenerator.java:57 | rules start out not separated in the trie |
| ParserGenerators.EarleyParserGenerator.SetMeasures | src/parser/EarleyParserGenerator.java:137-166 | output and internal measures come from the measure string, and rules are separated in the trie when some internal measure is needed |
| ParserGenerators.EarleyParserGenerator.SetIndexes | src/parser/EarleyParserGenerator.java:179-187 | fresh indexes hold the start and root symbols, numbered as RootIndexes says |
| ParserGenerators.EarleyParserGenerator.Prepare | src/parser/EarleyParserGenerator.java:137-211 | measures, operator, indexes and rule table as the parts above say, and the standard edge space exactly when induction, decoding or entropy is asked for |
| ParserGenerators.EarleyParserGenerator.PreInit | src/parser/EarleyParserGenerator.java:115-212 | the whole of preInit: options, measures, operator, indexes, root rule, rule table and edge-space kind |
| ParserGenerators.LogLexicalProbs | src/parser/EarleyParserGenerator.java:233-246 | fails exactly when some lexical probability is below 0 or above 1.000001; otherwise every probability is replaced by its log and no key changes |
| ParserGenerators.LogCounter | src/parser/EarleyParserGenerator.java:236-244 | one tag's counter: fails exactly on an improper probability, otherwise holds the logs |

## Left out

- The chart algorithms of `EarleyParser` and its subclasses are not modelled, because they are floating-point probability arithmetic: scanning, prediction closure, completion, the outside pass, the category charts and the prefix, surprisal and entropy measures. Only the indexing and bookkeeping helpers they call are modelled.
- The closure matrices are not modelled, because they use matrix inversion from a foreign library. Neither are `RelationMatrix`, `Prediction`, `Completion`, `Grammar` and `InsideOutside`, which consume those scores or do EM/VB re-estimation with digamma functions.
- Log-domain arithmetic is not modelled.
  - `LogProbOperator`, `SloppyMath` and the log-add mode of both `TrieSurprisal` classes are left out, including the assertion that log scores are at most 0.
  - `ArrayMath.logSum`, `Math.log` and `Double.parseDouble` are function parameters, left uninterpreted.
- Everything built on Stanford CoreNLP trees and treebanks is not modelled: `ViterbiDecoder`, `MarginalDecoder.getBestParse` and `socialSentMarginalDecoding`, `Util.tagRulesFromTrees`, `TreeBankFile.transformTrees`, and `parser/RuleFile`'s smoothing and test runners. `TreeBanks.Tree` stands in for the tree type in the two rewrites that are modelled.
- I/O is not modelled, because it is outside the logic: `main` methods, command-line handling, file readers and writers, progress and verbose printing, and the `sprint`/`toString` debug formatters. A reader is modelled as its sequence of lines. The `%e` rendering of probabilities in `lt2grammar.py`'s output is left out; probabilities stay reals.
- Character classes are ASCII only. Java's `Character.isUpperCase`, `isLowerCase`, `isTitleCase` and `isDigit`, Python's `str.upper()` and the regex `\s` are modelled on ASCII, not Unicode.
- `Rule.setMother` and `Edge.setMother` are not modelled, because rules and edges are values here and no modelled operation renames a rule's mother.
- Sharing of sub-trie objects is not modelled. Tries are values (`Tries.Node`), so a sub-trie returned by `findTrie` and then changed in place is not aliased with its parent.
- `utility/Trie.java` and `parser/Trie.java`, the superclasses of the two `TrieSurprisal` classes, are not part of this model. They are taken to behave like `util/Trie.java`, and both `TrieSurprisal` classes are modelled by `SurprisalTries`.
- `StateSpace.addRule` is not modelled, because it converts a rule with `parser/Rule.toEdge`, which is not part of this model. `StateSpaces` models `addEdge` on the resulting edge.
- The left-wildcard example of the state-space test (active set {0, 2, 4, 7, 8, 9, 11, 12, 13}) is not stated: its proof does not fit the verifier's resource limit. The to-edge policy it exercises is modelled and proved in `EdgeSpaces` (`EdgeSpaces.WildcardSharesTo`).
- The Catalan-number use of `permutationMatrix` in the parser test is not stated. The table itself is proved equal to the binomial coefficients wherever they fit in an `int`.
- The five-sentence discourse example of the parser test is not stated. The segmentation it exercises is specified in general by `MarginalDecoders.SocialSegments`.
- The lexicon test's expected word index (`UNK-cbb`, `UNK-cc`, `UNK-CD`) comes from an earlier signature function. It is not stated, because the model follows the current `getSignature`, which gives `UNK-LC` and `UNK-ALLC`.
- The static fields of `EarleyParserOptions` are modelled as the fields of one `ParserOptions` object.
- The edge space, grammar and lexicon that `EarleyParserGenerator` builds in `init` are not modelled, because they need the closure matrices. `ParserGenerators.EarleyParserGenerator.Prepare` records which edge space would be built as a flag. Likewise, the choice of operator is recorded as `isLogOperator`.
- SmoothLexicons.SmoothLexicon.Train: keeps raw counts. `train` calls `smooth` with `keepRawCount` false, which then normalises each tag's counts and takes logs; that floating-point step is not modelled.
- SmoothLexicons.SmoothLexicon.Smooth: states the raw-count result only, for the same reason.
- The lexicon's word index, which numbers words, is left out. `SmoothLexicons` keys words by their text.
- DenseCharts.DenseChart.PredictAll: the cell `[right, right]` receives copies of the holding arrays. The Java stores the arrays themselves, but nothing writes to them afterwards, so no aliasing is observable. Rows of the dense chart are sequences held in arrays.
- SparseCharts.SparseChart.StorePredictTmpScores: the prediction maps are copied into the chart, where the Java stores the map objects. `initPredictTmpScores` makes fresh holding maps, so when it runs before each prediction step the copy is not observable.
- MarginalDecoders.Argmax: the assertion that every tag's name starts with the prefix filter is not modelled, because tag names are not part of the marginal map.
- Utilities.OutputSentenceResult: with fewer results than tokens the Java has already written the earlier lines when `results.get(i)` throws. The model returns only the failure.
- Utilities.OutputSentenceResult: the Java `Double` rendering of each result is a parameter (`show`).
- EarleyParsers.Linear: computed on unbounded integers, that is, as `linear` would be with its product widened to `long`. Java's `linear` computes `(right+1)*right` in `int`, which wraps from right = 46341. That is below what even the corrected cell-count guard accepts (65533 words). `EarleyParsers.LinearAsWritten` models the `int` arithmetic, and `EarleyParsers.LinearAsWrittenExact` and `EarleyParsers.LinearAsWrittenWraps` relate it to `Linear` (see Findings). Everything else in the model, `LinearInRange` and `TooManyCellsIffOverflow` included, numbers cells with `Linear`.
- Utilities.PermutationMatrix: entries are Java `int`s, wrapped modulo 2^32. They equal the binomial coefficients only while these fit in an `int` (up to row 33).
- EarleyParsers.EarleyParser.SentInit: accepts exactly the non-empty sentences whose cell numbers, computed without wrap-around, fit in an `int`, using the intended `long` guard (`TooManyCells`). As written the guard never fires (`EarleyParsers.GuardAsWrittenNeverFires`), so every non-empty sentence is accepted; see Findings.
- EarleyParsers.EarleyParser.ParseSentence: follows `SentInit`, with the same intended guard.
- MarginalDecoders.SocialSegments: `assert(sentLeft<sentRight)` is not modelled, because Java assertions are disabled by default. An empty word list therefore gives the one segment from 0 to 0 with no `##`, as the Java does with assertions off.
- MarginalDecoders.ComputeMarginalMap: `assert(score > operator.zero())` is not modelled, for the same reason. A zero score is summed like any other.
- Java `assert` statements on data read from files (a repeated word in `parser/RuleFile.addWord`, a repeated lexical rule in `categorizeAllRules`) are modelled as failures, that is, with assertions enabled.

## Findings

| source | as written | input that shows it | evidently intended | confidence | as-written member | corrected member |
|---|---|---|---|---|---|---|
| src/base/RuleSet.java:38-69 | `add` appends the rule to `allRules` before it checks for a duplicate, so a repeated rule leaves `allRules` longer than `size()` and shifts `get(id)` for every later id | add `a`, `a`, then `b`: `b` gets id 1 but `get(1)` is `a`, and adding `b` again compares its probability with `a`'s and aborts | append only when the rule is new, so `allRules[id]` is the rule numbered `id` | high (not executed) | RuleTable.RepeatedAddShiftsIds | RuleTable.RepeatedAddCorrected |
| src/parser/EarleyParser.java:1744-1748 | `(numWords+4)*(numWords+1)/2` is computed in `int` and only then widened to `long`, so the guard `numCells > Integer.MAX_VALUE` can never fire | numWords = 65534: the wrapped count is 32767 and the sentence is accepted, but `linear(0, 65535)` exceeds `Integer.MAX_VALUE` | compute the product in `long`, rejecting exactly the sentences whose cell numbers overflow; this is enough only together with the next row, since `linear` itself wraps earlier | high (not executed) | EarleyParsers.GuardAsWrittenMisses | EarleyParsers.TooManyCellsIffOverflow |
| src/parser/EarleyParser.java:1721-1723 | `linear` computes `(right+1)*right` in `int`, which wraps from right = 46341, below the 65533 words that even a `long` cell-count guard accepts | 46341 words: `linear(0, 46341)` is -1073669996, where the cell number is 1073813652 | compute `linear` in `long` (the result then fits in an `int` under the `long` guard) | high (not executed) | EarleyParsers.LinearAsWrittenWraps | EarleyParsers.TooManyCellsIffOverflow |
| src/decoder/MarginalDecoder.java:38-39 | `retainAll` runs on the key set returned by `listInsideEdges`, which on the sparse chart is the live key set of the forward-score cell | a completed edge with a forward score but no outer score in cell `[left, right]`: after `computeMarginalMap` its forward score reads 0 | intersect a copy of the key set, leaving the chart unchanged | medium (not executed) | MarginalDecoders.RetainAllLosesForward | MarginalDecoders.MarginalMap |

The grammar reader (`GrammarReader`), `RuleTable.RuleSet.Add` and `RuleTable.RuleSet.AddAll` follow `add` as written, since that is the code the reader calls. `RuleTable.AddCorrected` and `RuleTable.RuleSet.AddOnce` are the intended `add`.
