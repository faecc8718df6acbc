# French Converter, modelled in Dafny

French Converter turns a Latin word into its Modern French descendant. It
applies the sound changes of each period in order, as rewrite rules on a
string of IPA symbols. A stress mark (`/` in the newer script, `!` in the older
ones) precedes the stressed vowel. The repository holds three versions of the
converter, and this model covers the rewrite engine all three share.

- `new/french_converter.py` keeps two module-level lists, `consonants` and
  `vowels`, that the stages grow and shrink between rules. `join` renders the
  live list as a regex group (`(?:k|kʷ|s)`) at the moment a rule runs, `sub`
  applies one rule, and `evolve` resets the lists and runs the eight stages
  from Proto-Western-Romance to Modern French. The model makes the lists a
  class, `Inventory.SymbolInventory`, whose methods update them in place.
  Each stage is a method that `modifies` it (module `NewConverter`). A
  `list.remove` that can raise `ValueError` is a `Result` error path, and
  `Evolve` proves that none of them does.
- `french-converter-2.py` chains the same kind of stages as pure functions:
  each stage calls the stage before it, the first one calls `setup`, and then
  the stage runs its own `re.sub` calls (module `ConverterTwo`).
- `french-converter.py` contributes its spelling preparation, the table-driven
  vowel reduction of `toWR`, gemination loss, and the final devoicing of
  `toPF` and `toOF` (module `ConverterOne`).

The rule shapes have exact meanings, kept in module `Rewrite`. A rule is an
ordered alternation of literal branches. Each branch may carry a lookbehind
and a lookahead built from literal alternatives, `^` and `$`. A rule is
applied as `re.sub` applies it: one pass from left to right, taking at each
position the first branch that matches, never rescanning replaced text, and
judging every lookaround on the input of the pass. `$` also matches just
before a final newline, as in Python. Module `Gemination` holds the
duplicate collapses `(.)\1` and `(m1|m2|…)\1`. Module `Chunks` holds the
greedy chunk-and-lookup substitution. A rule outside these shapes
(repetition inside a lookaround, back-references that reorder text) goes to
the regular-expression engine `rx`, a parameter of the model, with its
pattern text as written, including the groups `join` renders from the live
lists.

Three rules of the source do not do what their neighbours show was meant (see
"## Findings"). Each is modelled twice: a member named `…AsWritten` follows
the code, and a member without the suffix holds the evidently intended rule.
The stages run the rules as written: `NewConverter` uses the velar-loss rule
of `new/french_converter.py:283` as written, and `ConverterTwo` uses `setup`
and the final devoicing of `french-converter-2.py:77` and `:456-463` as
written. Properties of the corrected rules are stated as such.

## Model

| member | source | states |
|---|---|---|
| Rewrite.FirstFiring | new/french_converter.py:27 | the branch an alternation picks at a position lies inside the word |
| Rewrite.FirstFiringSpec | new/french_converter.py:27 | the branch picked at a position matches there and no earlier branch does; when none is picked, none matches |
| Rewrite.ApplyFromFired | new/french_converter.py:27 | where a branch is picked, the pass writes its replacement and resumes right after the match |
| Rewrite.ApplyFromCopied | new/french_converter.py:27 | where no branch is picked, the pass copies the character and moves one position on |
| Rewrite.NothingFiresAt | new/french_converter.py:27 | where no branch matches at a position, none is picked |
| Rewrite.CopiesWhereNoneChosen | new/french_converter.py:27 | over positions where no branch is picked, the pass copies the text verbatim and goes on after it |
| Rewrite.InsertAtStart | new/french_converter.py:92 | `^(?=…)` inserts the replacement in front exactly when the lookahead holds at position 0, and otherwise leaves the word unchanged |
| Rewrite.Ctx | french-converter-2.py:108 | a group of alternatives under shared lookarounds gives one branch per alternative |
| Rewrite.Chars | french-converter-2.py:77 | a character class `[abc]` gives one one-character branch per character |
| Rewrite.Prefixed | new/french_converter.py:201 | a text followed by a group gives one branch per alternative of the group |
| Rewrite.Captured | french-converter-2.py:90 | a capturing group whose text the replacement puts back gives one branch per alternative |
| Rewrite.ProductMembers | new/french_converter.py:201 | the branches of a concatenated group such as `(?:r\|l)?ʲ?` are exactly the concatenations of one branch of each part |
| Rewrite.LitRewrites | new/french_converter.py:114 | a one-character literal rule rewrites that character wherever it stands, and writes it back only if its replacement holds it |
| Rewrite.DeletesAll | new/french_converter.py:114 | a one-character deletion such as `sub('h', '')` leaves no copy of the character |
| Rewrite.ApplyUnchanged | new/french_converter.py:27 | a word in which no branch matches anywhere comes back unchanged |
| Rewrite.EndsAbsent | new/french_converter.py:27 | a word lacking the first or last character of every pattern comes back unchanged |
| Rewrite.CopiesWhereNothingFires | new/french_converter.py:27 | a stretch where no branch matches is copied verbatim |
| Rewrite.KeepsOut | new/french_converter.py:27 | a pass never introduces a character that neither the word nor any replacement holds |
| Rewrite.KeepsOutFrom | new/french_converter.py:27 | from any position on, a pass that writes no c brings in no c the rest of the word lacks |
| Rewrite.FiredKeepsOut | new/french_converter.py:27 | where a branch is picked, c stays out when its replacement and the rest of the output hold none |
| Rewrite.CopiedKeepsOut | new/french_converter.py:27 | where a character is copied, c stays out when that character and the rest of the output are not c |
| Rewrite.CopiedIsNot | new/french_converter.py:114 | a rule that rewrites every c never copies a c |
| Rewrite.Removes | new/french_converter.py:114 | a rule that rewrites every c and writes no c leaves no c, although it makes a single pass |
| Rewrite.RemovesFrom | new/french_converter.py:114 | from any position on, a rule that rewrites every c and writes none leaves no c |
| Rewrite.PreservesCount | new/french_converter.py:135 | a rule whose branches each write back the stress marks they consume keeps the number of stress marks |
| Rewrite.CountFired | new/french_converter.py:135 | where a balanced branch is picked, the output keeps the count of the marker |
| Rewrite.CountCopied | new/french_converter.py:135 | where a character is copied, the output keeps the count of the marker |
| Rewrite.PreservesCountFrom | new/french_converter.py:135 | from any position on, a balanced rule keeps the count of the marker |
| Rewrite.SuffixRule | french-converter-2.py:748 | an end-anchored rule `p$` replaces the final p when the word ends in p, and otherwise leaves the word unchanged |
| Rewrite.ChainKeepsOut | new/french_converter.py:27 | a sequence of rules none of which writes c never brings c back |
| Rewrite.ChainSkips | new/french_converter.py:27 | rules of a sequence that leave the word as it is can be skipped |
| Rewrite.NoneWrites | new/french_converter.py:618-643 | a character none of the listed replacement texts holds is written by none of the rules |
| Rewrite.ChainRemoves | new/french_converter.py:592 | once a rule of a sequence rewrites every c and no later rule writes c, the result holds no c |
| Rewrite.ChainRemovesLit | new/french_converter.py:618-643 | the same, for a literal one-character rule and the replacement texts of the later rules |
| Rewrite.ChainPreservesCount | new/french_converter.py:536-553 | a sequence of rules each keeping the count of a marker keeps it |
| Rewrite.NonOverlapping | new/french_converter.py:27 | one pass never rewrites overlapping spans: `aa`→`a` turns "aaa" into "aa" |
| Gemination.CollapsePairs | french-converter-2.py:448 | `(.)\1`→`\1` never lengthens the word |
| Gemination.CollapsePairsMembers | french-converter-2.py:448 | collapsing only drops second copies: the same characters occur before and after |
| Gemination.CollapseUnchanged | french-converter-2.py:448 | a word without two equal neighbours in the class comes back unchanged |
| Gemination.CollapsePairStep | french-converter-2.py:448 | a doubled class character becomes one copy, and the pass resumes after the pair |
| Gemination.CollapseSingle | french-converter-2.py:448 | a character not followed by its copy is kept, and the pass resumes after it |
| Gemination.CollapseRun | french-converter-2.py:448 | a run of n copies shrinks to ⌈n/2⌉ copies, because the pass never looks back at what it wrote |
| Gemination.TripleBecomesDouble | french-converter-2.py:448 | "aaa" becomes "aa" under `(.)\1` |
| Gemination.OutsideClassKept | french-converter.py:279 | a doubled character outside the class, such as "ss" for `([pbtdkg])\1`, is untouched |
| Gemination.FirstDoubled | new/french_converter.py:337 | the symbol picked at a position is the first in list order whose double starts there |
| Gemination.CollapseSymbols | new/french_converter.py:337 | `(m1\|m2\|…)\1`→`\1` never lengthens the word |
| Gemination.CollapseSymbolsMembers | new/french_converter.py:337 | symbol gemination only drops second copies: a character occurs after it exactly when it occurred before |
| Gemination.CollapseSymbolDouble | new/french_converter.py:337 | a doubled symbol, including a multi-character one such as kʷ, becomes one copy when no earlier symbol's double also starts there |
| Gemination.CollapseSymbolsUnchanged | new/french_converter.py:337 | a word with no listed symbol doubled anywhere comes back unchanged |
| Gemination.CollapseRunStep | french-converter-2.py:448 | two more copies in front of a run add exactly one copy to what the run shrinks to |
| Gemination.FirstDoubledIs | new/french_converter.py:337 | the symbol picked is the k-th whenever its double starts the text and no earlier symbol's double does |
| Gemination.CollapseSymbolsFired | new/french_converter.py:337 | where the k-th symbol is the first whose double starts the word, the double becomes one copy and the scan resumes right after it |
| Gemination.CollapseSymbolsCopied | new/french_converter.py:337 | where no listed double starts the word, its first character is copied and the scan moves one position on |
| Gemination.NoDoubleAfterHead | new/french_converter.py:337 | dropping the first character of a word with no listed double at its first positions leaves none at the corresponding positions |
| Gemination.CollapseSymbolsPrefix | new/french_converter.py:337 | a stretch at whose positions no listed double starts is copied verbatim, and the rest is collapsed on its own |
| Gemination.NoHeadUnchanged | new/french_converter.py:337 | when every listed symbol starts with c, a word without c comes back unchanged |
| Gemination.OtherHeadCopied | new/french_converter.py:337 | when every listed symbol starts with c, a leading character other than c is copied |
| Gemination.LabiovelarGeminate | new/french_converter.py:337 | with k and kʷ listed, a doubled kʷ becomes one kʷ, although k is listed first |
| Chunks.Tokens | french-converter.py:85 | the chunks of `[aeiou:]{1,2}` and the text between them rebuild the word, and form a greedy cutting |
| Chunks.TokensUnique | french-converter.py:85 | any greedy cutting of the word into chunks is this one |
| Chunks.TokenCons | french-converter.py:85 | a chunk or character put before a greedy cutting of the rest of a word gives a greedy cutting of the whole, when a one-character chunk is not followed by a chunk |
| Chunks.ChunkLookupRenders | french-converter.py:85 | the one-pass lookup substitution is the greedy cutting with each chunk looked up and the other text kept |
| Chunks.NoChunkUnchanged | french-converter.py:85 | a word without a chunk character comes back unchanged |
| Chunks.IdentityTable | french-converter.py:85 | a table mapping every key to itself changes nothing |
| ConverterOne.PrepIsChain | french-converter.py:52-59 | the preparation is the eight rewrites applied in source order |
| ConverterOne.PrepSpelling | french-converter.py:52-56 | the prepared word holds no c, x or y |
| ConverterOne.PrepRulesWrite | french-converter.py:52-59 | the rules for c, x and y rewrite every copy, and no later rule writes one back |
| ConverterOne.PrepKeepsStress | french-converter.py:57-59 | the preparation keeps every stress mark and only moves it past the glides |
| ConverterOne.PrepRulesBalanced | french-converter.py:52-59 | each preparation rule writes back every stress mark it consumes |
| ConverterOne.SpellingBalanced | french-converter.py:52-56 | the five spelling rules neither match nor write a stress mark |
| ConverterOne.GlidesBalanced | french-converter.py:57-59 | the i, u glide rules and the u fricative rule carry the captured stress mark over |
| ConverterOne.ReduceVowelsByChunks | french-converter.py:83-85 | the vowel reduction replaces each greedy chunk that is a table key by its value and keeps every other chunk and character |
| ConverterOne.WesternTableDiphthongs | french-converter.py:83-84 | ae becomes E and au becomes aw |
| ConverterOne.WesternTableLength | french-converter.py:83-84 | a: becomes a, u becomes o, u: becomes u |
| ConverterOne.WesternTableKeepsOthers | french-converter.py:85 | a chunk that is not a key ("ea") is kept verbatim |
| ConverterOne.GreedyFromTheLeft | french-converter.py:85 | "aea" is cut as ae then a, so it becomes "Ea" |
| ConverterOne.SingleStopsExamples | french-converter.py:279 | a doubled stop collapses, and a doubled s stays |
| ConverterOne.SingleStops | french-converter.py:279 | geminate stop loss never lengthens the word, keeps exactly the same letters, and leaves a word without a doubled stop unchanged |
| ConverterOne.Voiceless | french-converter.py:282 | the lookup sends each voiced obstruent to a voiceless one |
| ConverterOne.VoicedNotVowel | french-converter.py:282 | no voiced obstruent or voiceless partner is a vowel, and no partner is voiced |
| ConverterOne.DevoicedInTail | french-converter.py:283 | whether a position is devoiced depends only on the text from it on: dropping the first character shifts the answer by one |
| ConverterOne.BeforeVowelKept | french-converter.py:283 | a voiced obstruent with a vowel anywhere after it is not devoiced |
| ConverterOne.DevoiceFinal | french-converter.py:283 | devoicing keeps the length and devoices exactly the voiced obstruents with no vowel after them, each judged on the input |
| ConverterOne.DevoiceKeepsVowels | french-converter.py:283 | every vowel stays where it is, and no vowel is created |
| ConverterOne.DevoiceIdempotent | french-converter.py:282-283 | devoicing twice is devoicing once |
| ConverterOne.DevoiceTwiceAt | french-converter.py:282-283 | no position of a devoiced word is devoiced again |
| ConverterOne.DevoiceOnlyAfterLastVowel | french-converter.py:283 | everything up to and including the last vowel is untouched |
| ConverterOne.DevoiceExample | french-converter.py:283 | a final cluster devoices as a whole: "ardz" becomes "arts" |
| ConverterOne.SingleConsonantsExamples | french-converter.py:384 | "sss" becomes "ss" because the pass never overlaps, and doubled vowels stay |
| ConverterOne.SingleConsonants | french-converter.py:384 | consonant gemination loss never lengthens the word, keeps exactly the same letters, and leaves a word without a doubled consonant unchanged |
| ConverterTwo.SetupAsWritten | french-converter-2.py:64-79 | `setup` as written leaves no c and no x in the word |
| ConverterTwo.Setup | french-converter-2.py:64-79 | `setup` with line 77 corrected leaves no c and no x, and keeps the number of stress marks |
| ConverterTwo.SetupRulesWrite | french-converter-2.py:67-78 | in both versions of `setup`, the c and x rules rewrite every copy, and no later rule writes one |
| ConverterTwo.SetupSpelling | french-converter-2.py:67-72 | the rules of `setup`, as written or corrected, leave no c and no x |
| ConverterTwo.SetupRulesBalancedFirst | french-converter-2.py:67-72 | in both versions, the first four setup rules write back every stress mark they consume |
| ConverterTwo.SetupRulesBalancedMiddle | french-converter-2.py:73-75 | so do the next three, in both versions |
| ConverterTwo.SetupRulesBalancedLast | french-converter-2.py:76-78 | with line 77 corrected to `w\1`, so do the last three |
| ConverterTwo.SetupKeepsStress | french-converter-2.py:67-78 | with line 77 corrected, the rules of `setup` keep every stress mark |
| ConverterTwo.GlideQuiet | french-converter-2.py:77 | on "eu!e", neither version of the u glide rule matches at the first or last letter |
| ConverterTwo.GlideFires | french-converter-2.py:77 | on "eu!e", the first branch, "u!", matches between the e's |
| ConverterTwo.GlideOverStress | french-converter-2.py:77 | on "eu!e" either version of the u glide rule rewrites "u!", between the e's, to its first replacement |
| ConverterTwo.SetupRuleQuiet | french-converter-2.py:67-78 | every setup rule but the u glide leaves alone a word without c, q, g, x, a, o and i |
| ConverterTwo.SetupFiresOnlyGlide | french-converter-2.py:67-78 | on such a word, when the u glide's output is also such a word, `setup` is that one rule |
| ConverterTwo.GlideUAsWrittenDropsStress | french-converter-2.py:77 | as written, the u glide rule turns "eu!e" into "ewe" |
| ConverterTwo.GlideUAsWrittenUnbalanced | french-converter-2.py:77 | as written, the u glide rule consumes a stress mark it does not write back |
| ConverterTwo.GlideUCarriesStress | french-converter-2.py:77 | with `w\1`, the u glide rule turns "eu!e" into "ew!e" |
| ConverterTwo.SetupAsWrittenDropsStress | french-converter-2.py:64-79 | `setup` as written turns "eu!e" into "ewe": the stress mark is lost |
| ConverterTwo.SetupRulesAsWrittenDropStress | french-converter-2.py:67-78 | the rules of `setup` as written turn "eu!e" into "ewe": the stress mark is lost |
| ConverterTwo.SetupCarriesStress | french-converter-2.py:64-79 | `setup` with `w\1` turns "eu!e" into "ew!e" |
| ConverterTwo.SetupRulesCarryStress | french-converter-2.py:67-78 | the corrected rules of `setup` turn "eu!e" into "ew!e" |
| ConverterTwo.RunConcat | french-converter-2.py:495-562 | running two blocks of a stage one after the other is running them as one block |
| ConverterTwo.RunBlock | french-converter-2.py:660-697 | a list of rules run after other steps is the chain of those rules on what the steps leave |
| ConverterTwo.Shapes | french-converter-2.py:94-100 | each rule of a block becomes one step, in the same order |
| ConverterTwo.RunShapes | french-converter-2.py:94-100 | rules run as steps do what the chain of those rules does |
| ConverterTwo.ShapesRemoveLit | french-converter-2.py:288-290 | a literal one-character rule run as a step removes its character when no rule from it on writes it |
| ConverterTwo.ThenDropRemoves | french-converter-2.py:327 | steps that end by deleting a character leave none of it, whatever the engine did before |
| ConverterTwo.LatinVowels | french-converter-2.py:94-100 | the seven rules of lines 94-100, in order |
| ConverterTwo.UnstressedOpenMid | french-converter-2.py:108-109 | the two rules of lines 108-109 |
| ConverterTwo.ConsonantLosses | french-converter-2.py:120-140 | the four rules of lines 120-140, in order |
| ConverterTwo.Yod | french-converter-2.py:155-159 | the five rules of lines 155-159, in order |
| ConverterTwo.ToProtoGalloIberoRomance | french-converter-2.py:166-265 | the stage is `setup`, as written, followed by every step of the first two stages, in order |
| ConverterTwo.Assibilation | french-converter-2.py:173-178 | the three rules of lines 173-178, in order |
| ConverterTwo.FirstLenition | french-converter-2.py:241-252 | the twelve rules of lines 241-252, in order |
| ConverterTwo.PalatalSonorants | french-converter-2.py:259-262 | the four rules of lines 259-262, in order |
| ConverterTwo.ToEarlyOldFrench | french-converter-2.py:269-489 | the stage is `setup`, as written, followed by every step of the first three stages, in order |
| ConverterTwo.Onset | french-converter-2.py:288-290 | the three rules of lines 288-290, in order |
| ConverterTwo.PalatalAffricates | french-converter-2.py:308-310 | the three rules of lines 308-310, in order |
| ConverterTwo.VelarPalatalization | french-converter-2.py:336-339 | the four rules of lines 336-339, in order |
| ConverterTwo.BackDiphthongs | french-converter-2.py:369-371 | the three rules of lines 369-371, in order |
| ConverterTwo.SecondLenition | french-converter-2.py:420-431 | the twelve rules of lines 420-431, in order |
| ConverterTwo.OpenE | french-converter-2.py:438-440 | the three rules of lines 438-440, in order |
| ConverterTwo.LateConsonants | french-converter-2.py:467-486 | the six rules of lines 467-486, in order |
| ConverterTwo.ToOldFrench | french-converter-2.py:493-562 | the stage is `setup`, as written, followed by every step of the first four stages, in order |
| ConverterTwo.OralDiphthongs | french-converter-2.py:513-528 | the four rules of lines 513-528, in order |
| ConverterTwo.OldFrenchLosses | french-converter-2.py:532-554 | the six rules of lines 532-554, in order |
| ConverterTwo.ToLateOldFrench | french-converter-2.py:566-645 | the stage is `setup`, as written, followed by every step of the first five stages, in order |
| ConverterTwo.LVocalisation | french-converter-2.py:576-579 | the four rules of lines 576-579, in order |
| ConverterTwo.RoundedVowels | french-converter-2.py:586-600 | the five rules of lines 586-600, in order |
| ConverterTwo.Falling | french-converter-2.py:603-616 | the four rules of lines 603-616, in order |
| ConverterTwo.Deaffrication | french-converter-2.py:632-642 | the eight rules of lines 632-642, in order |
| ConverterTwo.ToMiddleFrench | french-converter-2.py:649-700 | the stage is its own rules chained on what `setup`, as written, and the steps of the first five stages leave, that is, on the Late Old French form |
| ConverterTwo.MiddleFrenchRules | french-converter-2.py:660-697 | the twelve rules of lines 660-697, in order |
| ConverterTwo.ToEarlyModernFrench | french-converter-2.py:704-729 | the stage is `setup`, as written, followed by every step of the first seven stages, in order |
| ConverterTwo.ModernFrenchRules | french-converter-2.py:740-774 | the eleven rules of lines 740-774, in order |
| ConverterTwo.ModernFrenchLiterals | french-converter-2.py:740-774 | the rules for r, ʎ, ǝ and E are the one-character literal rules to ʁ, j, ø and ɛ |
| ConverterTwo.OnsetRemovesMarks | french-converter-2.py:288-290 | no J and no h is left once the onset rules have run, whatever came before |
| ConverterTwo.PalatalReleaseRemovesMark | french-converter-2.py:304-327 | no ʲ is left after line 327, whatever the engine did in the steps before it |
| ConverterTwo.VelarPalatalizationRemovesMarks | french-converter-2.py:336-339 | no K and no G is left after lines 338-339 |
| ConverterTwo.FinalRules | french-converter-2.py:456-463 | the devoicing chain is one end-anchored rule per pair, in source order |
| ConverterTwo.SettlesBy | french-converter-2.py:456-463 | replacements that all end inside a set of characters, with patterns that all end outside it, settle |
| ConverterTwo.FirstFinal | french-converter-2.py:456-463 | the first rule of the chain whose pattern ends the word, and none before it |
| ConverterTwo.SuffixMisses | french-converter-2.py:456-463 | a rule `p$` whose pattern cannot end the word leaves it as it is |
| ConverterTwo.ChainMisses | french-converter-2.py:456-463 | a word that no remaining pattern can end passes the rest of the chain unchanged |
| ConverterTwo.Fired | french-converter-2.py:456-463 | after `p$` → r the word ends as r ends, and holds a newline only if r does |
| ConverterTwo.FiresHere | french-converter-2.py:456-463 | when the rule at a position fires, no rule after it fires again |
| ConverterTwo.FiresStep | french-converter-2.py:456-463 | a rule whose pattern ends the word rewrites that end, and the chain goes on with the result |
| ConverterTwo.MissesHere | french-converter-2.py:456-463 | a rule whose pattern does not end the word passes it on unchanged |
| ConverterTwo.ChainFiresOnce | french-converter-2.py:456-463 | along a chain whose outputs no later pattern targets, exactly the first matching rule fires |
| ConverterTwo.FinalDevoicingShapes | french-converter-2.py:456-463 | both devoicing lists, as written and corrected, settle, and both only swap the last one or two characters |
| ConverterTwo.FirstFinalKeepsPrefix | french-converter-2.py:456-463 | a chain of short swaps keeps the length and every character before the last two |
| ConverterTwo.FinalDevoicingFiresOnce | french-converter-2.py:456-463 | corrected final devoicing fires at most one rule, keeps the length, and changes only the last one or two characters |
| ConverterTwo.FinalDevoicingAsWrittenFiresOnce | french-converter-2.py:456-463 | the chain as written also fires at most one rule, keeps the length, and changes only the last one or two characters |
| ConverterTwo.DzNeverFires | french-converter-2.py:460-462 | as written, the dz$ rule is never the one that fires |
| ConverterTwo.EndsInDz | french-converter-2.py:460-462 | a word ending in dz ends in z and in dz, and the z and dz rules would rewrite it to …ds and …ts |
| ConverterTwo.FinalDzAsWritten | french-converter-2.py:460-462 | as written, a final dz becomes ds |
| ConverterTwo.FinalDzDevoiced | french-converter-2.py:460-462 | with dz$ tried before z$, a final dz becomes ts |
| ConverterTwo.FinalDevoicingIdempotent | french-converter-2.py:456-463 | as written and corrected, devoicing a devoiced word changes nothing |
| ConverterTwo.ChainSettled | french-converter-2.py:456-463 | a chain whose outputs no pattern targets leaves its own output unchanged |
| ConverterTwo.ModernFrenchReplacements | french-converter-2.py:740-774 | the texts the Modern French rules write |
| ConverterTwo.ModernFrenchRemoves | french-converter-2.py:740-774 | the Modern French rules leave no r, ʎ, ǝ or E |
| ConverterTwo.ModernFrenchRemovesOne | french-converter-2.py:740-774 | a one-character Modern French rule for r, ʎ, ǝ or E removes that character, since no later rule writes it back |
| ConverterTwo.ToModernFrench | french-converter-2.py:733-780 | a Modern French word holds no r, ʎ, ǝ or E, whatever the earlier stages and the engine produced |
| ConverterTwo.FinalSchwaLoss | french-converter-2.py:748 | `ǝ$` removes one final schwa and only one |
| ConverterTwo.FinalSchwaKept | french-converter-2.py:748 | a word not ending in ǝ keeps all its schwas through `ǝ$` |
| Inventory.Kept | new/french_converter.py:418 | a filtered list is never longer than the list |
| Inventory.KeptMembers | new/french_converter.py:418 | a filter keeps exactly the listed symbols that are not excluded |
| Inventory.KeptConcat | new/french_converter.py:504 | filtering is piecewise, so the kept symbols stay in order |
| Inventory.KeptNothing | new/french_converter.py:61 | with nothing excluded, every member is kept |
| Inventory.KeptAllExcluded | new/french_converter.py:61 | with every member excluded, nothing is kept |
| Inventory.KeptNothingExcluded | new/french_converter.py:61 | with no member excluded, the list is kept whole |
| Inventory.RemoveFirst | new/french_converter.py:253 | `list.remove` shortens the list by one when the symbol is there, and leaves it alone otherwise |
| Inventory.RemoveFirstSplit | new/french_converter.py:331 | only the first copy goes; the parts before and after it are kept |
| Inventory.HeadSplit | new/french_converter.py:253 | a non-empty list joined to another is its head before its tail joined to the other |
| Inventory.RemoveFirstCons | new/french_converter.py:253 | a leading symbol other than the one removed is kept in front |
| Inventory.NotInTail | new/french_converter.py:253 | a symbol missing from a list is missing from its tail |
| Inventory.RemoveFirstAppend | new/french_converter.py:354 | symbols appended after the first copy do not change which copy goes |
| Inventory.RemoveFirstMembers | new/french_converter.py:594 | what remains is the symbols of the list, every one except the one removed |
| Inventory.RemoveFirstCounts | new/french_converter.py:253 | exactly one copy goes, and every other symbol keeps its count |
| Inventory.RemoveFirstOfTwo | new/french_converter.py:253 | a symbol listed twice survives one removal |
| Inventory.Join | new/french_converter.py:44-61 | `join` renders a group that opens with `(?:` and closes with `)` |
| Inventory.IndexOf | new/french_converter.py:61 | the position found holds the symbol and no earlier position does |
| Inventory.IndexOfAfter | new/french_converter.py:61 | the first x in a + [x] + b is the one after a, when a holds none |
| Inventory.SplitBar | new/french_converter.py:61 | cutting a text at every `\|` gives at least one part |
| Inventory.SplitBarAt | new/french_converter.py:61 | cutting at the first `\|` splits off the text before it |
| Inventory.SplitBarOfBar | new/french_converter.py:61 | cutting the `\|`-joined members at every `\|` gives the members back |
| Inventory.Group | new/french_converter.py:61 | the branches of a group are its members, or the single empty branch of "(?:)" |
| Inventory.JoinAlternatives | new/french_converter.py:44-61 | the branches of `join(include, *exclude)` are the members not excluded, in order with duplicates |
| Inventory.JoinExcludes | new/french_converter.py:44-61 | an excluded symbol is never a branch |
| Inventory.JoinAllExcluded | new/french_converter.py:44-61 | excluding every member gives "(?:)" |
| Inventory.JoinExample | new/french_converter.py:44-61 | `join(['k','kʷ','r','s'], 'r')` is "(?:k\|kʷ\|s)" |
| Inventory.SymbolInventory.constructor | new/french_converter.py:32-33 | the module starts with both lists empty |
| Inventory.SymbolInventory.Reset | new/french_converter.py:35-42 | `reset` sets the 17 Latin consonants and the five vowels, whatever the lists held |
| Inventory.SymbolInventory.Extend | new/french_converter.py:86 | `extend` puts the symbols at the end of the chosen list, in order, and leaves the other list alone |
| Inventory.SymbolInventory.Append | new/french_converter.py:151 | `append` puts one symbol at the end of the chosen list |
| Inventory.SymbolInventory.Remove | new/french_converter.py:253 | `remove` drops the first copy; it fails exactly when the symbol is missing, and the list is then unchanged |
| Inventory.SymbolInventory.Filter | new/french_converter.py:418 | the comprehension drops every copy of the named symbols |
| NewConverter.SubIgnoresDebug | new/french_converter.py:6-30 | `sub` returns the engine's result whether or not `debug` is set |
| NewConverter.VelarLossAsWrittenNeverFires | new/french_converter.py:283 | as written, the velar-loss rule changes no word |
| NewConverter.VelarLossAsWrittenKeeps | new/french_converter.py:283 | as written, "uga" keeps its g |
| NewConverter.VelarLossDeletes | new/french_converter.py:283 | with the lookbehind, a g after o, u, ɔ or w and before a or /a is lost |
| NewConverter.VelarLossKeepsVowel | new/french_converter.py:283 | the back vowel before the g is copied |
| NewConverter.VelarLossDropsG | new/french_converter.py:283 | the g between back vowel and a is replaced by nothing |
| NewConverter.VelarLossQuietAfter | new/french_converter.py:283 | text without g after the lost g is copied |
| NewConverter.VelarLossFires | new/french_converter.py:283 | the corrected branch matches the g |
| NewConverter.VelarLossExample | new/french_converter.py:283 | "uga" becomes "ua" |
| NewConverter.Labiovelars | new/french_converter.py:83-84 | the two rules of lines 83-84 |
| NewConverter.SevenVowels | new/french_converter.py:96-104 | the nine rules of lines 96-104, in order |
| NewConverter.ConsonantLosses | new/french_converter.py:111-124 | the four rules of lines 111-124, in order |
| NewConverter.FrontGlides | new/french_converter.py:132-137 | the four rules of lines 132-137, in order |
| NewConverter.BackGlidesAndPalatals | new/french_converter.py:142-149 | the four rules of lines 142-149, in order |
| NewConverter.BackGlidesRemoveZ | new/french_converter.py:149 | no z is left after `^j\|dʲ\|gʲ\|z`→ɟ |
| NewConverter.ToProtoWesternRomance | new/french_converter.py:63-153 | kʷ, gʷ and then ɟ join the consonants, ɛ and ɔ join the vowels, and the word holds no z |
| NewConverter.Assibilation | new/french_converter.py:175-176 | the two rules of lines 175-176 |
| NewConverter.FirstDiphthongization | new/french_converter.py:183-196 | the eight rules of lines 183-196, in order |
| NewConverter.FirstLenition | new/french_converter.py:200-212 | the thirteen rules of lines 200-212, in order |
| NewConverter.NewPalatals | new/french_converter.py:217-218 | the two rules of lines 217-218 |
| NewConverter.ToProtoGalloIberoRomance | new/french_converter.py:155-228 | ʦ, then ð and ʣ, then ɲ and ʎ join the consonants, and the vowels are unchanged |
| NewConverter.Affrication | new/french_converter.py:250-251 | the two rules of lines 250-251 |
| NewConverter.JodPalatalization | new/french_converter.py:257-264 | the six rules of lines 257-264, in order |
| NewConverter.SecondDiphthongization | new/french_converter.py:272-274 | the three rules of lines 272-274, in order |
| NewConverter.BackRounding | new/french_converter.py:279-283 | the three rules of lines 279-283, in order, with the velar-loss rule as written |
| NewConverter.LVocalization | new/french_converter.py:291-293 | the three rules of lines 291-293, in order |
| NewConverter.SecondLenition | new/french_converter.py:304-321 | the twelve rules of lines 304-321, in order |
| NewConverter.FrontA | new/french_converter.py:327-334 | the four rules of lines 327-334, in order |
| NewConverter.FrontARemovesAe | new/french_converter.py:327-331 | no æ survives the front-a rules |
| NewConverter.FinalDevoicing | new/french_converter.py:341-347 | the seven rules of lines 341-347, in order |
| NewConverter.Depalatalization | new/french_converter.py:357-371 | the seven rules of lines 357-371, in order |
| NewConverter.ToEarlyOldFrench | new/french_converter.py:230-373 | the stage fails at line 253 exactly when ɟ is missing, and at line 354 exactly when ʣ is missing, each time with the lists as changed so far; otherwise the word holds no æ, ɟ and ʣ are removed, ʧ, ɫ, ʧ and θ are appended, and the vowels gain æ and ə and lose the first æ |
| NewConverter.EarlyOldFrenchEndsWithoutAe | new/french_converter.py:327-371 | from the front-a rules on, no rule writes an æ, so the stage's word has none |
| NewConverter.GeminationSparesR | new/french_converter.py:337 | gemination loss leaves "rr" untouched, because r is excluded |
| NewConverter.DzKept | new/french_converter.py:253-354 | ʣ is there to remove at line 354 exactly when it was a consonant at the start of the stage |
| NewConverter.EarlyOldFrenchVowels | new/french_converter.py:276-331 | when the vowels held no æ, removing æ takes the one the stage appended, so the vowels only gain ə |
| NewConverter.EarlyOldFrenchKeepsHR | new/french_converter.py:253-354 | h and r survive Early Old French |
| NewConverter.FinalDevoicingKeepsOutAe | new/french_converter.py:341-347 | final devoicing brings back no æ |
| NewConverter.DepalatalizationKeepsOutAe | new/french_converter.py:357-371 | depalatalization brings back no æ |
| NewConverter.LowNasals | new/french_converter.py:398-410 | the five rules of lines 398-410, in order |
| NewConverter.HighNasals | new/french_converter.py:432-443 | the five rules of lines 432-443, in order |
| NewConverter.DentalFricativeLoss | new/french_converter.py:415-416 | the two rules of lines 415-416 |
| NewConverter.Delabialization | new/french_converter.py:421-427 | the three rules of lines 421-427 |
| NewConverter.ToOldFrench | new/french_converter.py:375-445 | θ, ð, kʷ and gʷ are filtered out of the consonants, and ɑ then y join the vowels |
| NewConverter.OldFrenchKeepsHR | new/french_converter.py:418-424 | h and r survive the Old French filters |
| NewConverter.FrontRounding | new/french_converter.py:467-476 | the six rules of lines 467-476, in order |
| NewConverter.FrontGlide | new/french_converter.py:482-483 | the two rules of lines 482-483 |
| NewConverter.Monophthongs | new/french_converter.py:488-492 | the two rules of lines 488-492 |
| NewConverter.Deaffrication | new/french_converter.py:500-502 | the three rules of lines 500-502 |
| NewConverter.LateVocalization | new/french_converter.py:508-511 | the two rules of lines 508-511 |
| NewConverter.ToLateOldFrench | new/french_converter.py:447-513 | ɥ joins the consonants, the affricates ʦ, ʧ, ʤ are filtered out and ʃ, ʒ appended, ø, œ and E join the vowels, and the word holds no affricate |
| NewConverter.LateOldFrenchKeepsHR | new/french_converter.py:504-505 | h and r survive the Late Old French filter |
| NewConverter.DeaffricationRemoves | new/french_converter.py:500-502 | no ʦ, ʧ or ʤ is left after deaffrication |
| NewConverter.LateOldFrenchEndsWithoutAffricates | new/french_converter.py:500-511 | the last rules of the stage bring back no affricate |
| NewConverter.AffricatesFiltered | new/french_converter.py:504-505 | the filter drops every copy of ʦ, ʧ and ʤ, including the second ʧ of line 323 |
| NewConverter.MiddleFrenchRules | new/french_converter.py:536-553 | the ten rules of lines 536-553, in order |
| NewConverter.ToMiddleFrench | new/french_converter.py:515-555 | the stage is its rules in order, and it keeps the number of stress marks |
| NewConverter.MiddleFrenchKeepsStress | new/french_converter.py:536-553 | the Middle French rules move no stress mark |
| NewConverter.MiddleFrenchFirstBalanced | new/french_converter.py:536-538 | each of the first three rules writes back the stress mark it consumes |
| NewConverter.MiddleFrenchMiddleBalanced | new/french_converter.py:539-544 | so do the next four |
| NewConverter.MiddleFrenchLastBalanced | new/french_converter.py:547-553 | so do the last three |
| NewConverter.LateLosses | new/french_converter.py:582-592 | the four rules of lines 582-592 |
| NewConverter.ToEarlyModernFrench | new/french_converter.py:557-596 | the stage fails exactly when h is not a consonant; otherwise h is removed from the consonants and from the word, and the vowels are unchanged |
| NewConverter.LateLossesRemoveH | new/french_converter.py:592 | no h is left after line 592 |
| NewConverter.ModernFrenchRules | new/french_converter.py:618-643 | the ten rules of the stage, in order |
| NewConverter.ModernFrenchReplacements | new/french_converter.py:618-643 | the texts the Modern French rules write |
| NewConverter.ModernFrenchRemoves | new/french_converter.py:618-643 | no r, ʎ, ə or E survives the Modern French rules |
| NewConverter.ModernFrenchKeepsOutH | new/french_converter.py:618-643 | the Modern French rules bring back no h |
| NewConverter.ToModernFrench | new/french_converter.py:598-647 | the stage fails at line 620 when r is missing, and at line 645 when E is missing; otherwise the word is the rules' result, r is replaced by ʁ in the consonants, and E leaves the vowels |
| NewConverter.RomanceConsonants | new/french_converter.py:41-220 | after the two Romance stages the consonants hold ɟ, ʣ, h and r |
| NewConverter.RKeptWithoutH | new/french_converter.py:594 | removing h leaves r |
| NewConverter.Evolve | new/french_converter.py:649-684 | after `reset` and the eight stages in order, no `list.remove` has failed, ʁ is a consonant, and the word holds no r, ʎ, ə, E or h |

## Left out

- Logging: the `debug` log call in `sub` and `new/log_setup.py`. `Sub` returns the engine's result and ignores the flag.
- Console output: `printif`, `print`, and the `showprev`/`showsteps` flags of the older scripts. They never change a returned string.
- The drivers: `run_tests` and the `words` list. Their expected outputs depend on the whole regular-expression engine.
- A general regular-expression matcher. Rules with repetition inside lookarounds, nested optional groups, or back-references that reorder the match are passed to the engine parameter `rx` with their pattern text. Nothing is proved about what the engine returns, so properties of a stage hold for whatever those rules produce.
- The commented-out sonority table of `french-converter-2.py`, which is dead code.
- Whether any output is historically correct.
- `french-converter.py` beyond its preparation, the `toWR` vowel lookup, the gemination of `toPF` and `toOF`, and the devoicing of `toPF`. Its other rules are not modelled.
- NewConverter.ToMiddleFrench: takes no `rx` or `debug`, because every rule of that stage has an exact shape and the flag only logs.
- NewConverter.Evolve: does not restate the intermediate words, only what the final word and the consonants are known to hold.
- ConverterTwo.ToModernFrench: states what the Modern French word lacks, not that it equals every step run after `setup`; the equality is stated for every earlier stage, and the last chain over the whole run is beyond the solver's budget.
- ConverterTwo.ToProtoWesternRomance: the first stage is `setup` followed by its steps, with nothing further stated about it; `ConverterTwo.ToProtoGalloIberoRomance` states the run through it.
- Strings are sequences of Unicode code points, as in Python. There is no normalisation.

## Findings

| source | as written | input that shows it | evidently intended | confidence | as-written member | corrected member |
|---|---|---|---|---|---|---|
| new/french_converter.py:283 | `(?=o\|u\|ɔ\|w)g(?=/?a)` is a lookahead, so the g would have to be o, u, ɔ or w at once, and the rule never matches | "uga" keeps its g | `(?<=o\|u\|ɔ\|w)g(?=/?a)`: a g between a back vowel and a is lost, giving "ua" | not executed | NewConverter.VelarLossAsWrittenNeverFires | NewConverter.VelarLossDeletes |
| french-converter-2.py:77 | `(?<=[aeiouy:])u(!?)(?=[aeiouy!])`→`w` captures the stress mark and does not write it back | "eu!e" becomes "ewe" | `w\1`, as the i rule of line 76 keeps the mark: "ew!e", with every stress mark kept by `setup` | not executed | ConverterTwo.SetupAsWrittenDropsStress | ConverterTwo.SetupKeepsStress |
| french-converter-2.py:460-462 | `z$`→s runs before `dz$`→ts, so the dz rule never fires | a word ending in "dz" ends in "ds" | the affricate devoices as a whole: dz$ tried first, giving "ts" | not executed | ConverterTwo.FinalDzAsWritten | ConverterTwo.FinalDzDevoiced |
