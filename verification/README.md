# The configuration engine and the digests, in Dafny

This project models two components of the build system and proves what they are for.

**The configuration engine** (`scripts/config`). It reads a table of symbols with conditions in a
three-valued logic (`n` < `m` < `y`; and is the minimum, or the maximum, not turns the order round),
simplifies the conditions, arranges the menu entries, checks for recursive dependencies, calculates the
values, and writes and reads the configuration file.

- `Expressions`, `ExprEquality`, `ExprTransform`, `ExprSpine`, `ExprJoin`, `ExprDups`, `ExprStable`,
  `ExprFlat`, `ExprReduced`: the rewriting passes of `expr.c`, which values they keep, what they remove, and the
  exact boundary of the one that is not exact.
- `MenuEntailment`, `MenuForest`, `MenuPointers`, `MenuConditions`: `menu_finalize`, as an operation on
  trees, as the same operation on `next`, `list` and `parent` pointers, and what its tests and the conditions
  it hands down mean; and the walk over the result without a stack.
- `SymbolTable`, `DependencyCheck`: the depth-first check for recursive dependencies.
- `SymbolEquations`, `SymbolOutcomes`, `SymbolValues`: one equation for each symbol, that they have exactly one
  solution, what it says of each symbol, and the evaluator with its marks and caches that finds it.
- `ConfigStrings`, `ConfigFile`, `Ranges`, `Reload`: quoting, the lines of the file, ranges of numbers, and
  what saving and loading a configuration does to it.

**The digests** (`scripts/mkhash.c`). `Bytes`, `WordBits`, `BlockStream`, `Sha256Rounds`, `Sha256Stream`,
`Sha256Constants`, `Sha256Primes`, `Sha256`, `Md5Rounds`, `Md5Stream`, `Md5Sines` and `Md5` prove that the block
transformations, the partial buffers and the split counters compute SHA-256 and MD5 of the whole message,
however it is cut into pieces. The rounds and the contexts are written for any kind of word with regroupable addition, which keeps
bit patterns out of their proofs; `Sha256` and `Md5` put 32-bit words in.

Four results go against what one may expect, and against comments in the sources; the model follows the code.

- An entry can be moved below another that it does not depend on, once a symbol is `m` and another off
  (`PullBoundary`).
- `expr_eliminate_dups` can change a value `m` (to `n` or `y`). `SimplifyBoundary` and `ValuationBoundary`
  say exactly when it is exact.
- `sym_check_deps` is documented to return a null pointer when dependencies are fine. At the outermost call it
  returns one for every ordinary symbol, fine or not, so the error count of `conf_parse` does not rise; a
  recursion is only printed. `CheckAll` states both.
- A default above the visibility of its prompt does not survive saving and loading (`ReloadBoundary`), and a
  negative bound of a hexadecimal range cannot be read back (`ValidatedIsWithin`).

A valuation is *well typed* when booleans are never `m`, the text of a boolean or tristate symbol is the
name of its value, the constants `y`, `m`, `n` are worth what they say, and different constants have different
texts. `SolutionIsWellTyped` shows that every calculated configuration is one.

## Model

| member | source | states |
|---|---|---|
| `Expressions.ValueFrame` | scripts/config/expr.c:938-977 | the value of a condition depends only on the symbols it names |
| `ExprEquality.EliminateYnPreservesValue` | scripts/config/expr.c:231-312 | removing constant operands keeps the value in every valuation that fixes `y` and `n` |
| `ExprEquality.EliminateYnShrinks` | scripts/config/expr.c:231-312 | a tree with a constant operand somewhere gets strictly smaller |
| `ExprEquality.EliminateYnLeavesNone` | scripts/config/expr.c:231-312 | no constant operand is left anywhere |
| `ExprEquality.CancelCommonConserves` | scripts/config/expr.c:130-162 | one common part was taken out of both trees: each is worth its remainder together with that part |
| `ExprEquality.EliminateEqOrders` | scripts/config/expr.c:164-184 | if the remainders are ordered, the trees were ordered the same way, in every valuation |
| `ExprEquality.ExprEqSound` | scripts/config/expr.c:189-229 | a positive answer means equal values in every valuation, through the mutual recursion with cancelling |
| `ExprEquality.ExprEqReflexive` | scripts/config/expr.c:189-229 | every tree equals itself: cancelling a tree against a copy leaves nothing but constants |
| `ExprFlat.ExprEqExact` | scripts/config/expr.c:189-229 | two trees of one connective over symbols, comparisons and negations of them are found equal if and only if they have the same operands, counted, in any order and grouping |
| `ExprFlat.OperandIsTaken` | scripts/config/expr.c:164-184 | a single operand compared with a tree that has it is taken out of the tree once |
| `ExprTransform.TransformPreservesValue` | scripts/config/expr.c:636-771 | De Morgan and comparison rewriting keep the value in every well-typed valuation |
| `ExprTransform.TransformIsNormal` | scripts/config/expr.c:636-771 | negations end up on symbols other than the constants only, and no boolean is compared with a constant |
| `ExprTransform.NormalIffFixed` | scripts/config/expr.c:636-771 | a tree is left alone if and only if it is in that form |
| `ExprTransform.TransformIdempotent` | scripts/config/expr.c:636-771 | transforming twice is transforming once |
| `ExprTransform.TransBoolKeepsOn` | scripts/config/expr.c:314-341 | with negations on symbols only, dropping comparisons never raises a value and keeps whether it is `n` |
| `ExprTransform.TransBoolDropsAll` | scripts/config/expr.c:314-341 | no comparison of a tristate symbol with `n` is left at any depth, and a tree without one is not changed |
| `ExprTransform.NormalIsSafe` | scripts/config/expr.c:314-341 | every transformed tree has its negations where that pass needs them |
| `ExprSpine.ValueOfPut` | scripts/config/expr.c:504-554 | what a tree is worth after one operand was overwritten: the rest of it combined with the new operand |
| `ExprJoin.JoinOrExact` | scripts/config/expr.c:346-408 | joining two operands of a disjunction keeps their joint value in every well-typed valuation |
| `ExprJoin.JoinAndExact` | scripts/config/expr.c:410-502 | the same for a conjunction |
| `ExprReduced.JoinsAllPairs` | scripts/config/expr.c:346-502 | two operands are joined if and only if they are equal or one of the pairs about one symbol, given as a list |
| `ExprJoin.ExtractCommonConserves` | scripts/config/expr.c:826-875 | each tree is worth its remainder together with the common part taken out |
| `ExprDups.JoinPairsExact` | scripts/config/expr.c:504-554 | the pairwise joining pass, with both pointers in one tree, keeps the value in every well-typed valuation |
| `ExprDups.ContradictedBound` | scripts/config/expr.c:556-610 | the operand that contradicts another is bounded by the negation of it |
| `ExprDups.DropContradictedKeeps` | scripts/config/expr.c:556-610 | the contradiction pass, including the comparison of an operand with subtrees that contain it, keeps every value but `m` |
| `ExprDups.OnePassKeeps` | scripts/config/expr.c:612-634 | both passes one after the other keep every value but `m` |
| `ExprDups.EliminateDups` | scripts/config/expr.c:612-634 | the loop ends, since a round that rewrites leaves a constant operand and so a smaller tree, and gives the simplified tree |
| `ExprDups.SimplifyKeeps` | scripts/config/expr.c:612-634 | the simplified tree has the value of the original wherever that is `n` or `y` |
| `ExprDups.SimplifyIdempotent` | scripts/config/expr.c:612-634 | simplifying again changes nothing, and neither pass rewrites anything |
| `ExprStable.JoinPairsDone` | scripts/config/expr.c:504-554 | the first pass rewrites nothing if and only if no two operands, at any depth, can be joined |
| `ExprStable.DropContradictedDone` | scripts/config/expr.c:556-610 | the second pass rewrites nothing if and only if no operand, at any depth, is contradicted |
| `ExprStable.SimplifyIsIrreducible` | scripts/config/expr.c:612-634 | the result has no two operands to join and none that is contradicted, at any depth, and exactly such trees are left unchanged |
| `ExprReduced.SimplifyIsReduced` | scripts/config/expr.c:504-634 | duplicates are gone: at no depth does the result have two operands of one connective that are equal or form one of those pairs |
| `ExprReduced.ContradictsExactly` | scripts/config/expr.c:573-609 | an operand contradicts a part of the tree if and only if the part has all operands of its negation, counted |
| `ExprReduced.SimplifyIsUnopposed` | scripts/config/expr.c:556-634 | at no depth does the result have an operand beside a part with all operands of its negation |
| `ExprStable.ConstantsSurvive` | scripts/config/expr.c:616-633 | constant operands are left in the result if and only if nothing was rewritten, since they are eliminated only after a rewrite |
| `ExprStable.ContradictionSimplifies` | scripts/config/expr.c:556-634 | for every symbol `s` but the three built-in constants, the tree `(s or y=n) and (not s and y!=n)`, which is `m` while `s` is, simplifies to `n` |
| `ExprStable.SimplifyBoundary` | scripts/config/expr.c:556-634 | a value is kept on all trees and well-typed valuations if and only if it is not `m` |
| `ExprStable.ValuationBoundary` | scripts/config/expr.c:556-634 | simplifying is exact in a valuation, on all trees in which the constant `m` does not stand by itself, if and only if no other symbol is worth `m` there |
| `MenuEntailment.ContainsIsNamed` | scripts/config/expr.c:773-795 | the search finds exactly the symbols that occur in the condition |
| `MenuEntailment.DependsForcesOn` | scripts/config/expr.c:797-824 | a condition found to depend on a symbol holds only while the symbol is on |
| `MenuEntailment.DependsExactly` | scripts/config/expr.c:797-824 | a condition is found to depend on a symbol if and only if one of its conjuncts is the symbol, `= y`, `= m` or `!= n` of it |
| `MenuEntailment.SettledComparesExactly` | scripts/config/expr.c:877-936 | turning symbols into comparisons with `n` is exact wherever nothing below a negation is `m` |
| `MenuEntailment.NegationBoundary` | scripts/config/expr.c:877-936 | below one more negation it stays exact if and only if the negated condition is not `m` |
| `MenuEntailment.LeafComparesExactly` | scripts/config/expr.c:877-936 | a single symbol or comparison is compared with each of the three constants exactly |
| `MenuEntailment.YesComparesExactly` | scripts/config/expr.c:877-936 | without `m` a whole condition is compared with `y` exactly |
| `MenuEntailment.ModIsNotCompared` | scripts/config/expr.c:877-936 | a connective compared with `m` is left as it is |
| `MenuEntailment.NoModSettles` | scripts/config/expr.c:877-936 | with no symbol worth `m` every condition over booleans and tristates is of that kind |
| `MenuEntailment.LeavingYesEntails` | scripts/config/menu.c:354-361 | cancelling a condition down to `y` means that the other one is never worth more, in every valuation |
| `MenuEntailment.AskingIsPulled` | scripts/config/menu.c:342-366 | whatever depends on the symbol is pulled, nothing is that does not name it, and an entry without a prompt condition pulls all that name its symbol |
| `MenuEntailment.PulledOnlyIfForced` | scripts/config/menu.c:342-366 | where nothing below a negation is `m`, an entry is pulled below another only if its condition forces the other's symbol on or the other's prompt to show |
| `MenuEntailment.PulledThoughNotForced` | scripts/config/menu.c:342-366 | for any symbol at `m` and any other that is off, boolean or tristate, an entry is pulled though neither is forced |
| `MenuEntailment.PullBoundary` | scripts/config/menu.c:342-366 | in a valuation the tests pull only what is forced, for all symbols and conditions over booleans and tristates, if and only if there are no two symbols of which one is `m` and the other off |
| `MenuForest.FinalizeHeadKeepsOrder` | scripts/config/menu.c:282-444 | whatever the tests answer, finalising keeps the order in which entries are met |
| `MenuForest.SpliceKeepsOrder` | scripts/config/menu.c:415-424 | moving the children of entries without a prompt text up keeps that order |
| `MenuForest.FinalizeHeadTitles` | scripts/config/menu.c:375-425 | afterwards every entry that has children has a prompt text |
| `MenuForest.AbsorbTakesLongestRun` | scripts/config/menu.c:346-366 | the entries pulled below another are the longest run behind it that the tests pull |
| `MenuForest.FinalizeHeadPulls` | scripts/config/menu.c:285-371 | an entry with a symbol and without children gets children if and only if the entry behind it is pulled, and what is left behind it is not pulled; an entry with children, or without a symbol, takes nothing |
| `MenuForest.FinalizeAllPulls` | scripts/config/menu.c:339-371 | in a finalised list nothing is left to be pulled |
| `MenuForest.SpliceMovesOnlyUntitled` | scripts/config/menu.c:415-424 | a list changes if and only if some entry without a prompt has children |
| `MenuPointers.Menus.Finalize` | scripts/config/menu.c:282-444 | the pointers link the finalised tree, everything outside is untouched, and every entry is finalised once, in order |
| `MenuPointers.Menus.FinalizeKids` | scripts/config/menu.c:339-340 | the loop over a list finalises each of its entries, though the list changes meanwhile |
| `MenuPointers.Menus.AbsorbSiblings` | scripts/config/menu.c:345-371 | the entries behind one are cut into the list below it and the list behind it, with matching parents |
| `MenuPointers.Menus.SplicePromptless` | scripts/config/menu.c:375-425 | the list with the moved children is linked, and none of them keeps its old parent |
| `MenuPointers.Menus.MoveKidsUp` | scripts/config/menu.c:415-424 | one entry's children are put behind it in the list that it is in |
| `MenuPointers.Menus.Walk` | scripts/config/confdata.c:787-820 | on every linked tree the walk without a stack ends and visits exactly the preorder, each entry once |
| `MenuPointers.Menus.FinalizeAndWalk` | scripts/config/confdata.c:678-733 | after finalising all menus the walk meets the entries in the order in which they were declared, and the pointers form a tree |
| `MenuConditions.PropagateKeeps` | scripts/config/menu.c:314-318 | the condition handed down to an entry is worth the conjunction of both, unless that is `m` |
| `MenuConditions.PathConditionKeeps` | scripts/config/menu.c:314-318 | at any depth an entry's condition is worth all conditions above it together, unless that is `m` |
| `MenuConditions.PropagatePromptVisible` | scripts/config/menu.c:326-331 | for symbols that are no tristates, dropping comparisons from the handed-down condition keeps whether a prompt shows |
| `MenuConditions.PropagatePromptDrops` | scripts/config/menu.c:326-331 | no comparison of a tristate symbol with `n` is left in a prompt condition, unless the symbol of the entry is tristate; then nothing is changed |
| `MenuConditions.VisibilityIsKept` | scripts/config/symbol.c:194-205 | for a symbol that is no tristate, with however many prompts, the calculated visibility is the same after comparisons have been dropped from all their conditions |
| `MenuConditions.AnyOfIs` | scripts/config/menu.c:372-373 | the direct dependencies are missing if no entry has a condition, and otherwise hold as far as the best of those there are |
| `MenuConditions.EntryPropertyIsSilent` | scripts/config/menu.c:60-61 | the property that every entry adds is neither a prompt nor a default |
| `MenuConditions.EntriesAreSeen` | scripts/config/menu.c:314-331 | the direct dependencies collected from the entries of a symbol name only what its properties name, and the constant `n` that dropping comparisons removes there |
| `MenuConditions.MovedOnlyIfForced` | scripts/config/menu.c:341-371 | every entry moved below another is, when shown, forced to have that one's symbol on or its prompt shown; the first one left is not pulled by the tests |
| `SymbolTable.TopologicalExcludesCycle` | scripts/config/symbol.c:1183-1216 | no recursive dependency passes through a symbol of an order in which dependencies come first |
| `SymbolTable.OrderMeansAcyclic` | scripts/config/symbol.c:1183-1216 | such an order of all symbols with dependencies rules recursion out |
| `SymbolTable.DepsAre` | scripts/config/symbol.c:1184-1210 | a symbol depends on what its reverse dependency, the conditions of its properties other than choices and selects, and the values of its defaults name, and on nothing else |
| `DependencyCheck.Checker.CheckDeps` | scripts/config/symbol.c:1255-1287 | the search ends; the symbols finished are closed under dependencies unless something was printed; the answer is a symbol on the stack |
| `DependencyCheck.Checker.CheckSymDeps` | scripts/config/symbol.c:1183-1216 | the same for everything that the innermost symbol depends on; the stack is restored |
| `DependencyCheck.Checker.CheckExprDeps` | scripts/config/symbol.c:1153-1181 | the same for the symbols of a condition |
| `DependencyCheck.Checker.Report` | scripts/config/symbol.c:1081-1151 | what is printed is the part of the stack from the symbol found again on, and it is a recursive dependency |
| `DependencyCheck.CheckAll` | scripts/config/zconf.y:522-527 | something is printed if and only if a recursive dependency exists; everything printed is one; otherwise symbols are finished after everything they depend on, and that order extends to all of the table; the error count stays zero in either case |
| `SymbolEquations.SolutionUnique` | scripts/config/symbol.c:293-440 | for an acyclic table the equations of all symbols have at most one solution |
| `SymbolEquations.ExactlyOneSolution` | scripts/config/symbol.c:293-440 | and at least one |
| `SymbolEquations.SettledExists` | scripts/config/symbol.c:293-452 | there is a solution in which the symbol that enables modules has the value that the equations assume, if it depends on no tristate |
| `SymbolEquations.SettledUnique` | scripts/config/symbol.c:293-452 | and only one, under the same condition |
| `SymbolEquations.SolutionBounds` | scripts/config/symbol.c:334-409 | a boolean, or a tristate without modules, is never `m`; no symbol is below the level at which others select it |
| `SymbolEquations.SolutionIsWellTyped` | scripts/config/symbol.c:293-440 | every solution is a well-typed valuation |
| `SymbolEquations.AcceptedValueComesOut` | scripts/config/symbol.c:474-527 | a value within range that the user sets is the value in the solution that follows, also if the modules symbol depends on it; its visibility and select level stay |
| `SymbolOutcomes.VisibleIs` | scripts/config/symbol.c:194-226 | in a solution a symbol is visible as far as its best prompt and selected as far as its reverse dependency says, with `y` for `m` where `m` is not possible |
| `SymbolOutcomes.UntypedIs` | scripts/config/symbol.c:328-331 | a symbol without a type stands for its name, a constant is worth what it says, and neither is visible, selected or written |
| `SymbolOutcomes.UserValueIs` | scripts/config/symbol.c:339-354 | a visible symbol that the user has set has the value of the user, limited by the visibility and raised to the select level; or the text of the user |
| `SymbolOutcomes.DefaultIs` | scripts/config/symbol.c:355-403 | otherwise the first default whose condition holds gives the value, limited by that condition and raised to the select level; or the text of the symbol it names |
| `SymbolOutcomes.NoDefaultIs` | scripts/config/symbol.c:355-403 | with no such default the value is the select level; or there is no text |
| `SymbolOutcomes.RangeIsExact` | scripts/config/symbol.c:474-491 | the values within range are exactly those that some setting brings about, if the select level is below the visibility |
| `SymbolOutcomes.SettableExactly` | scripts/config/symbol.c:474-527 | and the same with everything calculated anew: within range are exactly the values that some setting yields in a settled solution |
| `SymbolValues.Symbols.CalcValue` | scripts/config/symbol.c:293-440 | a symbol asked for is valid afterwards with its value in the solution, and nothing valid is calculated again |
| `SymbolValues.Symbols.CalcVisibility` | scripts/config/symbol.c:189-227 | visibility and select level are those of the solution, with other symbols calculated on the way |
| `SymbolValues.Symbols.FindDefault` | scripts/config/symbol.c:115-125 | the default found is the first whose condition holds in the solution |
| `SymbolValues.Symbols.EvalExpr` | scripts/config/expr.c:938-977 | the value of a condition in the solution, with the symbols it names calculated on the way |
| `SymbolValues.Symbols.ClearAllValid` | scripts/config/symbol.c:442-452 | after clearing all marks everything valid has its value in the solution for the present user values |
| `SymbolValues.Symbols.Recalculate` | scripts/config/symbol.c:293-452 | asked in any order and any number of times, every symbol comes out with its value in the solution and is calculated at most once, if the modules symbol depends on no tristate |
| `SymbolValues.Symbols.SetTristateValue` | scripts/config/symbol.c:493-527 | a value is accepted if and only if it is the present one or within range |
| `SymbolValues.Symbols.SetAndCalculate` | scripts/config/symbol.c:493-527 | an accepted value is what the next calculation yields |
| `SymbolValues.CheckAndCalculate` | scripts/config/zconf.y:521-528 | if the check prints nothing and the modules symbol depends on no tristate, asking for all symbols solves all equations |
| `ConfigStrings.EscapeStringValue` | scripts/config/symbol.c:915-956 | the quoted text has every quote and backslash escaped, and the counted buffer is exactly as large as the text needs |
| `ConfigStrings.Unquote` | scripts/config/confdata.c:156-169 | reading in place gives the text up to the first quote that is not escaped, or fails |
| `ConfigStrings.UnquotedEscaped` | scripts/config/confdata.c:156-169 | reading undoes quoting for every text, whatever follows the closing quote |
| `ConfigStrings.EscapedIsOpen` | scripts/config/confdata.c:165-169 | without the closing quote no quoted text is accepted |
| `ConfigStrings.StringValid` | scripts/config/symbol.c:552-593 | the character loops accept exactly decimal numbers without needless zeros, hexadecimal numbers, and texts of booleans |
| `ConfigStrings.ValidTextsAre` | scripts/config/symbol.c:552-593 | the texts of each type spelled out: decimal digits without a leading zero and a minus perhaps, hexadecimal digits and a prefix perhaps, a letter for a boolean or tristate |
| `ConfigFile.WriteSymbol` | scripts/config/confdata.c:484-505 | one line for a setting, in the form for its type and value |
| `ConfigFile.WriteConfig` | scripts/config/confdata.c:626-645 | the file is the lines of all items in order |
| `ConfigFile.SetSymVal` | scripts/config/confdata.c:120-188 | which value a text sets for a symbol of each type, and which texts set none |
| `ConfigFile.PlainValuesAreRead` | scripts/config/confdata.c:124-143 | `y` and `n` are read for every boolean and tristate symbol, `m` only for a tristate |
| `ConfigFile.UnsetExactly` | scripts/config/confdata.c:323-348 | a line that begins with `#` unsets a symbol if and only if it has the form that is written |
| `ConfigFile.CutForms` | scripts/config/confdata.c:352-361 | a value ends before the line end, with or without a carriage return, or with the text |
| `ConfigFile.SeenForms` | scripts/config/confdata.c:320-326 | a line is seen up to the zero in it, which behind a `#` may be skipped |
| `ConfigFile.LinesAreWritten` | scripts/config/confdata.c:485-505 | the lines as they stand in the file |
| `ConfigFile.ReadLine` | scripts/config/confdata.c:320-380 | which setting a line makes, whatever bytes it holds |
| `ConfigFile.ReadSimple` | scripts/config/confdata.c:320-401 | the settings after all lines, later ones over earlier ones |
| `ConfigFile.GetLine` | scripts/config/confdata.c:211-243 | the next line is everything up to a line end or the end of the file |
| `ConfigFile.SafeIsRead` | scripts/config/confdata.c:320-380 | among menu titles from which nothing is read, of settings that stay on their lines exactly the safe ones are read back |
| `ConfigFile.ReadIsSafe` | scripts/config/confdata.c:120-188 | whatever a file holds, no string with a line end, no malformed number and no boolean `m` is ever read from it |
| `ConfigFile.ReadOnTop` | scripts/config/confdata.c:320-401 | what a text sets, it sets in the same way on top of any settings |
| `ConfigFile.PlainTitleIsQuiet` | scripts/config/confdata.c:323-331 | nothing is read from a menu title without a line end that does not begin like a setting |
| `ConfigFile.TitleIsRead` | scripts/config/confdata.c:323-348 | but the title `CONFIG_X is not set` of a menu is read as a setting of X |
| `ConfigFile.FileRoundTrip` | scripts/config/confdata.c:320-505 | if nothing is read from the menu titles, reading what was written gives all settings back if and only if strings have no line end, numbers are well formed and booleans are not `m` |
| `Ranges.PrintedIsRead` | scripts/config/symbol.c:182-186 | a printed 64-bit number is read back in decimal always, in hexadecimal if it is not negative, and as the largest number otherwise |
| `Ranges.StrtollForms` | scripts/config/symbol.c:139-153 | a number is read behind white space, a sign and a prefix up to the first character that is no digit, and saturates at 64 bits |
| `Ranges.CharactersAre` | scripts/config/symbol.c:139-153 | digits of either case have their values, and white space is six characters |
| `Ranges.SignIsPrinted` | scripts/config/symbol.c:182-186 | only numbers below zero are printed with a sign, and only in decimal |
| `Ranges.PrintedIsValid` | scripts/config/symbol.c:182-186 | a printed number is a valid text of its type |
| `Ranges.ValidatedIsWithin` | scripts/config/symbol.c:155-187 | the text that comes out is accepted if and only if it was valid and in range, or it was out of range and the bound can be read back |
| `Ranges.RangeLeavesAlone` | scripts/config/symbol.c:174-186 | a text in the range stays as it is, any other becomes the bound |
| `Ranges.ValidatedIsNearest` | scripts/config/symbol.c:155-187 | it stands for the number in the range that no other is nearer than, if and only if that number can be printed, and then a second run changes nothing |
| `Ranges.NegativeBoundIsLost` | scripts/config/symbol.c:182-186 | a negative upper bound of a hexadecimal range turns every number above it into one outside the range |
| `Reload.LogicalReloads` | scripts/config/symbol.c:339-384 | a calculated value, set by the user, gives itself again if and only if it is not a default above the visibility of the prompt |
| `Reload.DefaultIsLost` | scripts/config/symbol.c:346-366 | in a table of a modules symbol that is `y` by default and two tristate symbols, one set to `m` and the other `y` by default with a prompt that shows while the first is on, the second is `m` after the file was written and read and everything calculated anew |
| `Reload.ReloadBoundary` | scripts/config/confdata.c:410-424 | with all visible values restored, everything is calculated as before if and only if there is no such default |
| `Reload.SavedIsRestored` | scripts/config/confdata.c:787-820 | the file, with titles and symbols in the order of the walk, restores the value of every symbol that the user can see, if no text holds a line end |
| `Reload.SaveAndReload` | scripts/config/confdata.c:738-836 | writing the file with its titles, reading it and calculating anew gives the saved configuration if and only if there is no such default, for texts without line ends |
| `Bytes.EncodeIsBigEndian` | scripts/mkhash.c:91-109 | the bytes stored for a 32-bit and a 64-bit number are the number in big-endian order |
| `Bytes.EncodeIsLittleEndian` | scripts/mkhash.c:358-366 | the two words stored in little-endian order are one little-endian number of eight bytes |
| `Bytes.BigEndianReads` | scripts/mkhash.c:91-126 | a number that fits is read back from its big-endian bytes |
| `BlockStream.Continue` | scripts/mkhash.c:613-650 | after any prefix of a message only the state and the bytes behind the last whole block matter |
| `BlockStream.ZerosIsLeast` | scripts/mkhash.c:557-584 | the padding is the shortest that leaves room for the length |
| `BlockStream.PaddingIs` | scripts/mkhash.c:343-360 | the padding is a byte 0x80 and then zeros |
| `BlockStream.JoinedParts` | scripts/mkhash.c:692-705 | pieces behind each other are joined in order |
| `BlockStream.PadInOne` | scripts/mkhash.c:574-590 | with fewer than 56 bytes left over one block ends the message |
| `BlockStream.PadInTwo` | scripts/mkhash.c:577-590 | with 56 or more it takes two, and which two |
| `Sha256Rounds.Rnd` | scripts/mkhash.c:482-493 | one round in place, on an array whose indices rotate, is one round on shifting variables |
| `Sha256Rounds.ExtendSchedule` | scripts/mkhash.c:496-541 | sixteen more words of the message schedule, after those that are there |
| `Sha256Rounds.ScheduleIs` | scripts/mkhash.c:495-500 | the words behind the first sixteen are made of those 2, 7, 15 and 16 places before them |
| `Sha256Rounds.Transform` | scripts/mkhash.c:451-555 | for every state and block the new state is that of section 6.2.2 of FIPS 180-4 |
| `Sha256Constants.ConstantsAreCubeRoots` | scripts/mkhash.c:454-471 | every round constant is the first 32 bits of the fraction of the cube root of the number beside it |
| `Sha256Primes.FirstPrimes` | scripts/mkhash.c:454-471 | those numbers are, row by row and in order, all the primes up to 311, which are 64 |
| `Sha256Primes.InitialPrimes` | scripts/mkhash.c:601-609 | and the numbers beside the words of the initial state are the first eight of them |
| `Sha256Constants.CubeRootBitsUnique` | scripts/mkhash.c:454-471 | no other 32 bits are |
| `Sha256Constants.InitialAreSquareRoots` | scripts/mkhash.c:601-609 | the initial state is made of the fractions of square roots in the same way |
| `Sha256Constants.SquareRootBitsUnique` | scripts/mkhash.c:601-609 | and no other 32 bits are |
| `Sha256.FastChIsCh` | scripts/mkhash.c:442-442 | the shortened form of Ch is the one of section 4.1.2 of FIPS 180-4 |
| `Sha256.FastMajIsMaj` | scripts/mkhash.c:443-443 | and so is the one of Maj |
| `Sha256.SigmaBits` | scripts/mkhash.c:444-479 | bit by bit: the four functions of one word are the parity of three bits, rotated or shifted by the distances of section 4.1.2 of FIPS 180-4 |
| `Sha256.ChoiceBits` | scripts/mkhash.c:442-443 | bit by bit: a choice by the first word, and a majority |
| `Sha256.LoadIsWordOf` | scripts/mkhash.c:112-126 | four bytes shifted together in halves are their big-endian number |
| `Sha256.WordsHoldBlock` | scripts/mkhash.c:429-437 | the words of a block hold all its bytes in order |
| `Sha256.StoreLoads` | scripts/mkhash.c:91-126 | a stored word is read back |
| `Sha256.ZeroIsNeutral` | scripts/mkhash.c:665-666 | what a cleared context holds is zero |
| `Sha256Stream.CountTells` | scripts/mkhash.c:620-627 | the count of bits modulo 2^64 tells the number of bytes in the buffer and adds up |
| `Sha256Stream.PaddedIs` | scripts/mkhash.c:566-591 | the padded message fills whole blocks: the message, a one bit, less than a block of zeros, and the number of bits modulo 2^64, the most significant byte first |
| `Sha256Stream.StoredIs` | scripts/mkhash.c:660-663 | the digest is the eight words of the state in order |
| `Sha256Stream.Context.constructor` | scripts/mkhash.c:593-610 | a fresh context stands for the empty message |
| `Sha256Stream.Context.Update` | scripts/mkhash.c:613-650 | a context that stood for one message stands for it with the new bytes behind |
| `Sha256Stream.Context.Pad` | scripts/mkhash.c:565-591 | the state is that of the message padded as section 5.1.1 of FIPS 180-4 says, the length modulo 2^64 |
| `Sha256Stream.Context.Final` | scripts/mkhash.c:656-667 | the digest is that of all bytes added, and nothing of them is left in the context |
| `Sha256Stream.HashAgrees` | scripts/mkhash.c:442-443 | operations that agree give equal digests |
| `Sha256.HashFile` | scripts/mkhash.c:707-720 | the digest of a file read in any pieces is the SHA-256 of its bytes |
| `Md5Rounds.FourSteps` | scripts/mkhash.c:152-155 | four steps in which the registers change roles are four steps in which they shift |
| `Md5Rounds.OperationsAre` | scripts/mkhash.c:204-273 | function, word and shift of each operation are those that section 3.4 of RFC 1321 lists |
| `Md5Rounds.Round1` | scripts/mkhash.c:204-219 | words, shifts and functions of the first sixteen unrolled lines are those given by the number of the step |
| `Md5Rounds.Round2` | scripts/mkhash.c:222-237 | the same for the next sixteen, whose words go up by five modulo sixteen |
| `Md5Rounds.Round3` | scripts/mkhash.c:240-255 | the same with words going up by three, and the two groupings of H in turn |
| `Md5Rounds.Round4` | scripts/mkhash.c:258-273 | the same with words going up by seven |
| `Md5Rounds.Transform` | scripts/mkhash.c:197-281 | for every state and block the new state is that of section 3.4 of RFC 1321 |
| `Md5Sines.ConstantsAreSines` | scripts/mkhash.c:204-273 | the i-th additive constant is the integer part of 2^32 times the absolute value of the sine of i radians, as in section 3.4 of RFC 1321 |
| `Md5.FastFIsF` | scripts/mkhash.c:143-143 | the shortened form of F is that of RFC 1321 |
| `Md5.FastGIsG` | scripts/mkhash.c:144-144 | and so is the one of G |
| `Md5.FunctionBits` | scripts/mkhash.c:143-147 | bit by bit: two choices, a parity and the last function of section 3.4 of RFC 1321 |
| `Md5.RotatedBits` | scripts/mkhash.c:154-154 | rotating moves every bit up by the distance and around the end |
| `Md5.InitialBytes` | scripts/mkhash.c:293-296 | the registers begin with the bytes of section 3.3 of RFC 1321 |
| `Md5.StoreLoads` | scripts/mkhash.c:167-172 | a word stored in little-endian order is read back |
| `Md5.WordsHoldBlock` | scripts/mkhash.c:161-174 | the words of a block hold all its bytes in order |
| `Md5.ZeroIsNeutral` | scripts/mkhash.c:387-387 | the same for MD5 |
| `Md5Stream.CarryTells` | scripts/mkhash.c:308-311 | the new low word is below the old one if and only if there is a carry |
| `Md5Stream.CountWithCarry` | scripts/mkhash.c:308-311 | both words together are the number of bytes modulo 2^61, after any number of additions |
| `Md5Stream.LengthBytes` | scripts/mkhash.c:358-366 | the stored length is the number of bits modulo 2^64, in little-endian order |
| `Md5Stream.PaddedIs` | scripts/mkhash.c:338-375 | the same for MD5, the least significant byte first |
| `Md5Stream.Context.Body` | scripts/mkhash.c:181-289 | all blocks handed over are folded into the registers |
| `Md5Stream.Context.Update` | scripts/mkhash.c:302-335 | a context that stood for one message stands for it with the new bytes behind |
| `Md5Stream.Context.Final` | scripts/mkhash.c:337-388 | the digest is that of all bytes added, padded as sections 3.1 and 3.2 of RFC 1321 say, and nothing of them is left in the context |
| `Md5.HashFile` | scripts/mkhash.c:692-705 | the digest of a file read in any pieces is the MD5 of its bytes, with those constants |

## Left out

- Direct dependencies: the evaluator is modelled for tables in which they name nothing but what the symbol depends on anyway, and constants; `MenuConditions.EntriesAreSeen` shows that `menu_finalize` makes no others for symbols outside choices.
- SymbolEquations.SettledExists: the modules symbol depends on no tristate, here and in everything about the evaluator. Otherwise the source looks at that symbol while its value is being calculated.
- SymbolValues.Symbols.Recalculate: the modules symbol depends on no tristate, as for `SettledExists`.
- SymbolValues.CheckAndCalculate: the modules symbol depends on no tristate, as for `SettledExists`.
- Choice groups: choice symbols, choice values and their special cases in the checker, the evaluator, the reader and `menu_finalize` are not modelled.
- Ranges in the evaluator: `sym_validate_range` is modelled by itself in `Ranges`; the equations stop at the text before it, because the recursion check does not look at the bounds of a range and so does not rule out cycles through them.
- The passes of `expr.c` overwrite nodes through pointers. They are modelled on trees with positions for the pointers, so the reuse of nodes, aliasing between trees and freeing are not captured.
- ConfigFile.ReadLine: a line that is a single `#` at the very end of a file makes the source compare bytes left over from the line before; here such a line is ignored.
- ConfigFile.ReadLine: reads with the default prefix and for user values only; other definitions, unknown symbols created while reading, and the choice state are not modelled.
- Reload.SavedIsRestored: texts with a line end are left out, both those shown and those set; `ConfigFile.FileRoundTrip` says of any settings that they come back exactly if and only if all are safe, which for a string means that it has no line end. Numbers that the user has set are valid, as the source checks when they are set.
- Reload.SaveAndReload: texts with a line end are left out here too. The menu walk is given as a list of titles and symbols that holds every visible symbol once, with titles from which nothing is read (`ConfigFile.PlainTitleIsQuiet`; `ConfigFile.TitleIsRead` shows one from which something is); that the walk visits every entry once is `MenuPointers.Menus.FinalizeAndWalk`. `conf_read` afterwards forgets the values of symbols that are not visible; nothing is asked of those.
- SymbolValues.Symbols.CalcValue: the text of a number is the one before `sym_validate_range` clips it; the range is left out of the equations as said above.
- SymbolValues.Symbols.SetTristateValue: change counters, warnings about unmet dependencies and the flags that only the user interface reads are not modelled.
- Sha256Stream.Context.Update: the length of a piece is a 64-bit number; with a narrower size type the shift would lose bits before they are counted.
- Md5Sines.ConstantsAreSines: Dafny's reals have no limits, so sine and cosine of one are any two numbers between sums of their series, and those of other numbers are defined by the addition theorems.
- Select levels after dropping comparisons: `expr_trans_bool` can lower the level at which a boolean selects another symbol; only visibility is claimed.
- The hexadecimal text of a digest, file handling, environment variables, messages and the user interface.
- `conf_write_defconfig` leaves out settings equal to their defaults; only its walk is modelled.
