# The Kconfig engine, verified

`support/kconfig` decides which options a configuration may have, which values they get, and how a
configuration is stored. This project models its core and proves what the code promises:

- **the expression optimiser** (`expr.dfy`, `transform.dfy`, `expreq.dfy`, `eqstrength.dfy`, `slots.dfy`, `join.dfy`,
  `dups.dfy`, `literals.dfy`, `optimizer.dfy`, `print.dfy`): three-valued expressions, the rewrites over them, equality by cancelling
  common operands, removal of duplicate and contradictory operands in place, and the printer;
- **the symbol evaluator** (`symbols.dfy`, `values.dfy`, `evaluator.dfy`, `checkdeps.dfy`, `database.dfy`, `engine.dfy`,
  `setvalue.dfy`, `choice.dfy`):
  the memoising, mutually recursive `sym_calc_value`, the search for recursive dependencies that makes it
  meaningful, setting a value, and choices;
- **the menu tree** (`adoption.dfy`, `menus.dfy`, `narrow.dfy`, `placement.dfy`, `shape.dfy`, `menutree.dfy`,
  `conditions.dfy`, `finished.dfy`, `walk.dfy`): `menu_finalize`, which relinks the lists it is walking along, what the conditions it
  hands down and the places it gives entries mean, and the walk of `conf_write`;
- **configuration files** (`defconfig.dfy`, `conftext.dfy`, `readback.dfy`, `lines.dfy`, `reader.dfy`,
  `confchange.dfy`): minimal
  configurations, the text of a file and its reader with the in-place removal of backslashes, and change detection;
- **the symbol table** (`symhash.dfy`): the chained hash table that interns symbols.

Values are n, m and y as 0, 1 and 2. Recursive rewrites and pure calculations are functions with lemmas about them;
code that changes nodes, symbol fields, links, a line buffer or the hash chains is a class or an array method,
specified by such a function or outright.

## Where the code and expectations part

Each of these is shown by an input, or by a condition that says exactly when the expectation holds; the bullets say
"if and only if" where the condition is exact.

- Contradictions and tautologies are recognised by two-valued reasoning: `(A || n) && !A` becomes n also when A is m
  (`ContradictionBecomesNo`). `expr_eliminate_dups` never changes n or y; only m may move.
- `expr_trans_compare` on a negation just flips the comparison, which is right if and only if the negated operand is
  not m (`TransCompareNegation`).
- `expr_trans_bool` keeps "the value is n" on expressions whose negations sit on symbols, which is what
  `menu_finalize` gives it (`NarrowNormal`); above a negation there are expressions where it does not
  (`TransBoolNeedsNormal`). It may lower y to m (`PromptLowered`), which the lift of the visibility makes up for
  (`VisibilityUnchanged`).
- `menu_finalize` makes an entry a child by elimination, on the grounds that it is shown only where its parent's prompt
  is. That holds where negated operands are n or y and no operand is a text symbol (`EliminationImplies`); with a
  tristate at m an entry can be visible below an invisible prompt (`EliminationMisleads`).
- An entry without a prompt adopts every next entry that mentions its symbol in whatever way (`PromptlessAdopts`). For
  conjunctions of booleans the elimination test comes to the parent's operands being among the entry's, except that
  two equal single operands are not recognised (`AdoptsExactly`).
- `sym_check_deps` prints recursive dependencies but never returns a symbol at the top level, so the error count in
  `conf_parse` stays 0 and parsing goes on (`CheckAll`).
- Confirming the present value of a symbol keeps it, if and only if it is not a y that a default gave to a symbol
  visible as m only and not selected as y (`ConfirmKeepsValue`).
- A minimal configuration expands back if and only if no symbol is fragile, that is, unchangeable but with a user value
  that still matters (`MinimalExpands`, `FragileExampleLosesValue`).
- The first line the reader gets of what is written for a symbol restores it, if and only if the value can be stored
  and the line, without its newline, is shorter than the buffer (`LineRestored`). A symbol whose line cannot be read
  back, such as an int without a value, is reported as changed every time (`UnreadableAlwaysDiffers`). It does not
  keep the other symbols of a file from being restored (`FileRestored`).
- Exactly one member of a boolean choice is y, if and only if the choice is y and its visible pick, or else its first
  usable default, or else any visible symbol, is a member (`OneMemberIsYes`). A default outside the choice leaves all
  members n (`OutsideDefaultLeavesNone`).

## Model

| member | source | states |
|---|---|---|
| Exprs.EvalReadsMentioned | support/kconfig/expr.c:778-800 | only the symbols `expr_contains_symbol` finds decide the value of an expression |
| Exprs.ComparisonMeans | support/kconfig/expr.c:966-977 | comparisons are about texts, which are n, m and y for booleans and tristates |
| Exprs.DependsForcesSymbol | support/kconfig/expr.c:802-829 | where an expression that depends on a symbol is not n, neither is the symbol |
| Exprs.EvalNeutral | support/kconfig/expr.h:47-49 | y and n are the neutral and the deciding operand of AND and OR in all three values |
| Transforms.PushNot | support/kconfig/expr.c:721-738 | De Morgan makes an expression lighter when a negation counts double, so the re-calls end |
| Transforms.TransformExact | support/kconfig/expr.c:641-776 | `expr_transform` changes no value in all three values |
| Transforms.TransformNormalises | support/kconfig/expr.c:641-776 | afterwards negations sit only on symbols other than y, m, n, and no boolean is compared with these |
| Transforms.TransformFixpoints | support/kconfig/expr.c:641-776 | the expressions it leaves alone are exactly those |
| Transforms.TransformIdempotent | support/kconfig/expr.c:641-776 | a second run changes nothing |
| Transforms.TransformIsOnePass | support/kconfig/expr.c:641-776 | transforming the pieces again after each step comes to one pass that pushes negations down and keeps the order of operands |
| Transforms.TransBoolKeepsNo | support/kconfig/expr.c:322-346 | on a transformed expression `expr_trans_bool` keeps "is n" both ways and never raises a value |
| Transforms.TransBoolExactOnTwoValued | support/kconfig/expr.c:322-346 | it is exact when symbols are n or y |
| Transforms.TransBoolComplete | support/kconfig/expr.c:322-346 | it replaces every test of a tristate for non-n, and changes nothing where there is none |
| Transforms.TransBoolNeedsNormal | support/kconfig/expr.c:322-346 | an expression and valuation where a negation above makes it change n |
| Transforms.TransCompareExact | support/kconfig/expr.c:882-941 | comparing with y or n is computed exactly when negated operands are two-valued |
| Transforms.TransCompareNegation | support/kconfig/expr.c:913-914 | comparing a negation is right if and only if its operand is not m |
| Transforms.TransCompareText | support/kconfig/expr.c:933-934 | testing a text symbol for non-n is right if and only if its text is "n" |
| Transforms.TransCompareMod | support/kconfig/expr.c:889-934 | the comparison with m of symbols, comparisons and chains |
| Transforms.NonNoExact | support/kconfig/expr.c:882-934 | the test for non-n, where a missing expression means y |
| Equality.EliminateYnExact | support/kconfig/expr.c:236-317 | eliminating y and n changes no value |
| Equality.EliminateYnComplete | support/kconfig/expr.c:236-317 | none is left, nothing else changes, and the tree shrinks if there was one |
| Equality.EliminateCommonSplits | support/kconfig/expr.c:135-167 | each side is its remainder joined with one and the same common part |
| Equality.ExprEqSound | support/kconfig/expr.c:194-234 | expressions that `expr_eq` accepts have the same value under every valuation |
| Equality.EliminateEqImplies | support/kconfig/expr.c:169-189 | if nothing but y remains of the second expression, the first implies it |
| Equality.ExtractEqExact | support/kconfig/expr.c:853-880 | both expressions are split into a common part and remainders of the same value |
| EqualityStrength.ExprEqReflexive | support/kconfig/expr.c:194-234 | every expression equals itself, although operands are cancelled on the way |
| EqualityStrength.LiteralChainsEq | support/kconfig/expr.c:135-234 | chains of literals are equal if and only if they have the same multiset of operands, or both hold the deciding constant |
| LiteralChains.ExtractSubtracts | support/kconfig/expr.c:853-880 | on chains of literals, exactly the common operands move into the common part |
| LiteralChains.CancelsExactly | support/kconfig/expr.c:580-609 | chains of literals cancel if and only if the negations of all operands of the one are operands of the other |
| Joins.JoinOrRulesExact | support/kconfig/expr.c:351-413 | every rule for \|\| gives the value of the disjunction |
| Joins.JoinAndRulesExact | support/kconfig/expr.c:415-507 | every rule for && gives the value of the conjunction, constants being interned |
| Joins.JoinExact | support/kconfig/expr.c:351-507 | so does the whole of `expr_join_or` and `expr_join_and`, with the equality test in front |
| Joins.JoinOrExactly | support/kconfig/expr.c:376-404 | which operands of \|\| are joined, and to what |
| Joins.JoinAndExactly | support/kconfig/expr.c:440-496 | which operands of && are joined, and to what |
| Dups.Dups1Exact | support/kconfig/expr.c:509-559 | merging duplicates changes no value in all three values |
| Dups.Dups1TriesAll | support/kconfig/expr.c:509-559 | a pass that counts nothing has held every operand against every other |
| Dups.MergeAt | support/kconfig/expr.c:533-551 | of two joined operands the first slot becomes neutral and the second holds the result; all others stay |
| Dups.CancelsDecides | support/kconfig/expr.c:580-609 | operands that cancel make the whole m or decided, never the other value |
| Dups.Dups2Refines | support/kconfig/expr.c:561-615 | removing contradictions never changes n or y |
| Dups.Dups2TriesAll | support/kconfig/expr.c:561-615 | a pass that counts nothing has held every operand against every part of the chain |
| Dups.EliminateDupsRefines | support/kconfig/expr.c:617-639 | `expr_eliminate_dups` never changes a value of n or y, under any three-valued valuation |
| Dups.EliminateDupsExactOnTwoValued | support/kconfig/expr.c:617-639 | it is exact when symbols are n or y and the constant m does not occur |
| Dups.EliminateDupsComplete | support/kconfig/expr.c:617-639 | its result holds nothing that one of its rewrites could still remove |
| Dups.EliminateDupsFixpoints | support/kconfig/expr.c:617-639 | the expressions it leaves alone are exactly those in which nothing can be joined or cancelled |
| Dups.ContradictionBecomesNo | support/kconfig/expr.c:580-593 | an m that does move |
| Optimizers.Optimizer.EliminateDups1 | support/kconfig/expr.c:509-559 | overwriting the tree through two slots gives what the specification says, and counts as it says |
| Optimizers.Optimizer.EliminateDups2 | support/kconfig/expr.c:561-615 | the same for the second pass, including the second descent without a return |
| Optimizers.Optimizer.EliminateDuplicates | support/kconfig/expr.c:617-639 | the loop ends, gives the specified tree and restores `trans_count` |
| Printing.ReadPrinted | support/kconfig/expr.c:984-1014 | a parser with the usual precedence reads a printed expression back, but for association |
| Printing.PrintTellsApart | support/kconfig/expr.c:1058-1128 | two expressions print the same if and only if they differ in association only |
| Printing.PrintFixesValue | support/kconfig/expr.c:1058-1128 | so they have the same value |
| Printing.PrintNeedsNames | support/kconfig/expr.c:1058-1128 | symbols that print the same can have different values |
| Printing.CompareTypeExactly | support/kconfig/expr.c:984-1014 | the switch that falls through compares how strongly two kinds of expression bind |
| Printing.Parentheses | support/kconfig/expr.c:984-1014 | parentheses are around a disjunction below && or !, and a conjunction below !, only |
| Printing.PrintedForms | support/kconfig/expr.c:1058-1128 | how each kind of expression is written |
| Symbols.ComputeAgrees | support/kconfig/symbol.c:286-422 | the value of a symbol depends on the symbols it reads only |
| Symbols.SpecSolves | support/kconfig/symbol.c:286-422 | recursion along a rank gives every symbol of an acyclic database the value the others give it |
| Symbols.SolutionUnique | support/kconfig/symbol.c:286-422 | there is no other solution |
| SymbolValues.FirstDefaultAt | support/kconfig/symbol.c:116-126 | by position: the first default whose condition is not n, and none if and only if there is none |
| SymbolValues.BoundsAt | support/kconfig/symbol.c:189-227 | when a symbol is visible or fully visible, selected, and has its direct dependency met |
| SymbolValues.LogicalValue | support/kconfig/symbol.c:324-369 | a boolean or tristate has the strongest value that selects, the user within a prompt, or else the first usable default give it; when it is saved |
| SymbolValues.TextValue | support/kconfig/symbol.c:370-389 | a text is the user's, or else that of the symbol the first usable default names; when it is saved |
| SymbolValues.SpecOutcome | support/kconfig/symbol.c:286-422 | so it is for every symbol of an acyclic database |
| Evaluators.SymbolTable.CalcExpr | support/kconfig/expr.c:943-982 | the value of an expression, while the symbols in it are filled in |
| Evaluators.SymbolTable.CalcCompare | support/kconfig/expr.c:966-977 | comparisons go by text |
| Evaluators.SymbolTable.CalcDefault | support/kconfig/symbol.c:116-126 | the first default whose condition is not n |
| Evaluators.SymbolTable.CalcPrompts | support/kconfig/symbol.c:194-199 | the strongest prompt condition |
| Evaluators.SymbolTable.UpdateVisible | support/kconfig/symbol.c:194-205 | what `visible` becomes, and that nothing else of the symbol changes |
| Evaluators.SymbolTable.UpdateDirDep | support/kconfig/symbol.c:208-217 | what `dir_dep.tri` becomes |
| Evaluators.SymbolTable.UpdateRevDep | support/kconfig/symbol.c:218-226 | what `rev_dep.tri` becomes |
| Evaluators.SymbolTable.CalcVisibility | support/kconfig/symbol.c:189-227 | all three |
| Evaluators.SymbolTable.CalcLogical | support/kconfig/symbol.c:331-368 | value and SYMBOL_WRITE of a boolean or tristate outside choices |
| Evaluators.SymbolTable.CalcText | support/kconfig/symbol.c:370-389 | value and SYMBOL_WRITE of a string, int or hex |
| Evaluators.SymbolTable.CalcValue | support/kconfig/symbol.c:286-422 | on an acyclic database every valid symbol off the call stack agrees with the solution, whatever the call order; on any database the calculation ends |
| Evaluators.SymbolTable.ClearAllValid | support/kconfig/symbol.c:424-434 | no symbol is valid any more |
| Evaluators.SymbolTable.CalcAll | support/kconfig/confdata.c:861-864 | calculating all symbols in any order gives each of them the solution's value and flags |
| CheckDeps.Checker.CheckExpr | support/kconfig/symbol.c:1040-1068 | what a silent search of an expression has covered; the stack and the CHECK flags come back |
| CheckDeps.Checker.CheckSymDeps | support/kconfig/symbol.c:1071-1103 | the same for a symbol with all its properties, between push and pop |
| CheckDeps.Checker.CheckSymbol | support/kconfig/symbol.c:1142-1174 | a returned symbol is still marked CHECK; `check_top` is restored; silence means finished and ranked |
| CheckDeps.StackCycle | support/kconfig/symbol.c:1147-1150 | meeting a symbol that is on the stack closes a cycle |
| CheckDeps.OrderedMeansAcyclic | support/kconfig/symbol.c:1151-1152 | symbols finished one after the other have no cycle |
| CheckDeps.CheckAll | support/kconfig/zconf.y:524-527 | over all symbols a recursion is reported if and only if the followed dependencies have a cycle; no call returns a symbol |
| CheckDeps.CheckedMeansRanked | support/kconfig/symbol.c:1071-1103 | silence gives the rank the evaluator needs, once the symbols of direct dependencies are followed through some property |
| CheckDeps.FollowsExactly | support/kconfig/symbol.c:1071-1103 | by position: the search follows the select bound, and all properties but selects |
| CheckDeps.ReadsExactly | support/kconfig/symbol.c:189-389 | by position: the calculation reads the bounds, the prompts and the defaults |
| CheckDeps.CycleIsRead | support/kconfig/symbol.c:1083-1097 | a recursion found among prompts, defaults, selects and P_SYMBOL properties is one of the calculation |
| Databases.EliminateDupsIdempotent | support/kconfig/expr.c:617-639 | a second `expr_eliminate_dups` changes nothing |
| Databases.TransBoolKeepsSymbols | support/kconfig/expr.c:322-346 | `expr_trans_bool` drops no symbol but the constant n |
| Databases.PlaceMentionsAll | support/kconfig/menu.c:294-311 | every symbol of an entry's narrowed dependency is in the condition of its P_SYMBOL property |
| Databases.FinalizedIsFollowed | support/kconfig/symbol.c:1083-1097 | so the search follows direct dependencies in every finalized database |
| Databases.TreeGivesFinalized | support/kconfig/menu.c:353 | a database whose direct dependencies come from a finished menu tree is finalized |
| Engine.CheckAndCalculate | support/kconfig/zconf.y:523-527 | on a finalized database: a report if and only if the followed dependencies have a cycle, which is, where no other kind of property is there, if and only if the calculation would meet one; without a report the calculation meets none, and every symbol gets its only possible value |
| Defconfig.StringDefaultIsUserless | support/kconfig/symbol.c:675-740 | the string default is the value the symbol gets without a user value |
| Defconfig.MinimalStep | support/kconfig/confdata.c:502-533 | a symbol keeps its value in the minimal configuration if and only if it is not fragile |
| Defconfig.MinimalExpands | support/kconfig/confdata.c:481-552 | the minimal configuration expands back to the same values if and only if no symbol is fragile |
| Defconfig.MinimalExpandsWithoutModules | support/kconfig/confdata.c:481-552 | boolean configurations, and tristate ones without modules, always expand back |
| Defconfig.MinimalIsMinimal | support/kconfig/confdata.c:508-512 | every line of it comes from the user and is needed |
| Defconfig.FragileExampleLosesValue | support/kconfig/confdata.c:508-509 | a configuration that does not expand back: a tristate at m selects another whose default is y |
| SetValue.SetTristateValue | support/kconfig/symbol.c:475-509 | when a value is accepted, what is stored, and that all symbols become invalid if it is new |
| SetValue.LowerUnchanged | support/kconfig/symbol.c:475-509 | setting a symbol leaves the symbols it builds on alone |
| SetValue.SetYieldsValue | support/kconfig/symbol.c:456-473 | a new value is within range if and only if the symbol can be changed and recalculation yields that value |
| SetValue.ConfirmKeepsValue | support/kconfig/symbol.c:475-483 | confirming a value keeps it, with the one exception spelled out |
| SetValue.ValueInBounds | support/kconfig/symbol.c:324-369 | values stay at or above the select bound, below the visibility once set, and booleans are never m |
| SetValue.SpecTyped | support/kconfig/symbol.c:367-368 | calculated values are typed as the optimiser assumes |
| Choices.ChoiceCalculator.ChoiceDefault | support/kconfig/symbol.c:235-259 | the first usable default, or else the first visible member |
| Choices.ChoiceCalculator.CalcChoice | support/kconfig/symbol.c:261-284 | the user's pick while it is visible, or else the default; n if there is none |
| Choices.ChoiceCalculator.CalcChoiceValue | support/kconfig/symbol.c:324-396 | the value of the choice itself, and that only a choice that is y records a symbol |
| Choices.ChoiceCalculated | support/kconfig/symbol.c:324-369 | a choice has the value it would have as any other symbol without defaults |
| Choices.MandatoryValue | support/kconfig/menu.c:419-423 | a boolean choice that is not optional is y if and only if its prompt is shown, whatever the user set |
| Choices.MandatoryOneMember | support/kconfig/symbol.c:261-330 | then exactly one member is y if and only if the prompt is shown and the choice names a member |
| Choices.RecordedAt | support/kconfig/symbol.c:235-284 | in full: the visible pick, the first default with a condition other than n and a visible symbol, or the first visible member |
| Choices.ChosenMember | support/kconfig/symbol.c:235-284 | the recorded symbol is a member if and only if the choice names one |
| Choices.MemberValue | support/kconfig/symbol.c:327-330 | a member of a boolean choice is y if and only if it is recorded and visible |
| Choices.MemberCalculated | support/kconfig/symbol.c:324-369 | a member that is not fully visible has the value it would have as any other symbol that nothing selects |
| Choices.OneMemberIsYes | support/kconfig/symbol.c:261-330 | exactly one member is y if and only if the choice is y and its visible pick, or first usable default, or else any visible symbol, is a member; otherwise all are n; a visible pick wins |
| Choices.OutsideDefaultLeavesNone | support/kconfig/symbol.c:242-249 | a choice with a visible member and a default outside it, in which no member is y |
| Choices.PickDecides | support/kconfig/symbol.c:456-509 | a new value is accepted for a member if and only if the choice then gives it, and the others become n |
| Choices.MemberRange | support/kconfig/symbol.c:456-473 | a fully visible member takes y only, one visible as m takes n or m |
| Choices.ConfirmKeepsMembers | support/kconfig/symbol.c:475-509 | confirming the value of a member changes no member |
| Adoption.ConditionExact | support/kconfig/menu.c:322-324 | the rewritten condition is y exactly when the expression is not n |
| Adoption.EliminationImplies | support/kconfig/menu.c:332-341 | an entry adopted by elimination is not n only if the parent's prompt condition is not n |
| Adoption.AdoptionImplies | support/kconfig/menu.c:327-341 | whichever way it is adopted, the parent's symbol or prompt condition is not n where the entry is not |
| Adoption.EliminationMisleads | support/kconfig/menu.c:332-341 | an adoption by elimination, with a tristate at m, that puts a visible entry below an invisible prompt |
| Adoption.DependsExactly | support/kconfig/expr.c:802-829 | an expression depends on a symbol if and only if an operand of its &&-chain is s, s=y, s=m or s!=n |
| LiteralChains.AdoptsWithoutPrompt | support/kconfig/menu.c:322-341 | without a prompt condition, every next entry that mentions the symbol is adopted |
| LiteralChains.EliminatesExactly | support/kconfig/menu.c:332-341 | on conjunctions of literals: an entry passes the elimination test if and only if all operands of the parent's condition are among its own |
| LiteralChains.AdoptsExactly | support/kconfig/menu.c:327-341 | the adoption test on conjunctions of booleans, in terms of their operands |
| MenuTrees.MenuTree.Propagate | support/kconfig/menu.c:289-311 | the entry and the prompt of each entry of a list get their own condition narrowed by the parent's, nothing else changes |
| MenuTrees.MenuTree.FinalizeTree | support/kconfig/menu.c:262-424 | over the whole tree: preorder kept, every parent pointer the owner of the list, every entry finalized once, entries without a prompt flattened, conditions narrowed all the way down; its shape is the one the final conditions determine, and every entry is below another because it was there, passed the adoption test, or came up through entries without a prompt |
| MenuTrees.MenuTree.Finalize | support/kconfig/menu.c:262-424 | what one call does to the list it starts, which entries it takes, on what grounds, and which it leaves untouched |
| MenuTrees.MenuTree.FinalizeList | support/kconfig/menu.c:319-320 | the loop that finalizes a list while its entries adopt each other |
| MenuTrees.MenuTree.AdoptLoop | support/kconfig/menu.c:322-346 | adopted entries pass the test, the first one left fails it, links and log agree |
| MenuTrees.MenuTree.AdoptSiblings | support/kconfig/menu.c:321-351 | the adopted entries form the list of the entry, the others still follow it |
| MenuTrees.MenuTree.Reparent | support/kconfig/menu.c:396-400 | all entries of a list change their parent, only parent pointers change |
| MenuTrees.MenuTree.Splice | support/kconfig/menu.c:395-404 | the entries below a promptless entry follow it in the list it is on |
| MenuTrees.MenuTree.Flatten | support/kconfig/menu.c:355-405 | the loop over a growing list ends, gives the list the specified form, keeps preorder and leaves promptless entries without a list |
| Shapes.AdoptionMaximal | support/kconfig/menu.c:326-346 | in the shape the final conditions determine, an entry adopts exactly as far as the test allows: those taken pass it and mention the symbol, the first one left fails it, and no entry is lost |
| Shapes.AdoptionTakes | support/kconfig/menu.c:328-331 | adoption stops at an entry that does not mention the symbol, and takes one that needs it |
| Shapes.PromptlessAdopts | support/kconfig/menu.c:322-341 | an entry without a prompt adopts every next entry that mentions its symbol |
| Shapes.AdoptsStep | support/kconfig/menu.c:343-346 | finalizing one more adopted entry settles one more part of that shape, although conditions below the others still change |
| Shapes.ListPreorder | support/kconfig/menu.c:319-320 | a finalized list keeps every entry, in order |
| Placements.PlacedFlattened | support/kconfig/menu.c:395-404 | flattening gives no entry a place it has no grounds for |
| MenuConditions.EliminateDupsNormal | support/kconfig/expr.c:617-639 | negations stay on symbols |
| MenuConditions.NarrowNormal | support/kconfig/menu.c:294-311 | all conditions `menu_finalize` hands down have their negations on symbols |
| MenuConditions.NarrowReduced | support/kconfig/menu.c:294-297 | a narrowed condition has nothing left to join or cancel, and narrowing it by nothing does not change it |
| MenuConditions.NarrowPlain | support/kconfig/menu.c:295-297 | where nothing can be joined or cancelled, it is what is above, followed by the entry's own |
| MenuConditions.ConditionsFromOwner | support/kconfig/menu.c:289-311 | every entry's conditions are its own, narrowed by those of the entry on whose list it was |
| MenuConditions.PromptLiftUnchanged | support/kconfig/menu.c:306-311 | the last rewrite of a prompt's condition does not change when the prompt is shown |
| MenuConditions.NarrowRefines | support/kconfig/menu.c:295-298 | a narrowed condition is the conjunction of what is above and its own wherever that is n or y |
| MenuConditions.ConditionsExact | support/kconfig/menu.c:289-318 | in the finished tree each entry's conditions are the conjunction of its own with those of all entries above it, for symbols that are n or y |
| MenuConditions.ConditionsHold | support/kconfig/menu.c:289-318 | under every valuation: conditions in the finished tree are n wherever the conjunction of the original ones is, equal it wherever it is n or y and no prompt of a non-tristate is above, and have their negations on symbols |
| MenuConditions.ConditionsHoldBelowRoot | support/kconfig/menu.c:289-318 | the same for the whole tree |
| MenuConditions.PromptLowered | support/kconfig/menu.c:309-310 | a prompt condition that is y and becomes m |
| MenuConditions.VisibilityUnchanged | support/kconfig/symbol.c:194-201 | a symbol that is no tristate is exactly as visible as without the last rewrite of its prompts |
| FinishedMenus.ShownByOwner | support/kconfig/menu.c:294-311 | an entry whose condition is not n was on the list of one whose condition is not n |
| FinishedMenus.ShownByDirect | support/kconfig/menu.c:326-345 | if an entry is not n, neither is the one on whose list it was; if it was adopted, neither is the prompt condition or the symbol of the one that adopted it, but for doubtful eliminations |
| FinishedMenus.FinishedTreeExplained | support/kconfig/menu.c:262-424 | in the finished tree nothing is shown below an entry that is not, unless the symbol of that entry or of a promptless one between them is on, or an adoption by elimination on the way is doubtful |
| MenuWalk.Next | support/kconfig/confdata.c:645-652 | without a stack the walk finds what a recursion would visit next |
| MenuWalk.Step | support/kconfig/confdata.c:641-652 | one round visits one entry and keeps the rest of the preorder |
| MenuWalk.WriteEntry | support/kconfig/confdata.c:631-638 | a symbol is written once, in the order of first entries |
| MenuWalk.WriteAll | support/kconfig/confdata.c:620-653 | the walk ends, visits the preorder once, and writes each marked symbol of the tree exactly once, in the order of their first entries |
| ConfText.IntValid | support/kconfig/symbol.c:541-553 | exactly the decimal numbers without leading zeros |
| ConfText.HexValid | support/kconfig/symbol.c:554-562 | exactly the hexadecimal numbers, with or without 0x |
| ConfText.WriteString | support/kconfig/confdata.c:420-440 | quotes and backslashes are escaped, in both kinds of file |
| ConfText.WriteSymbol | support/kconfig/confdata.c:442-475 | the line of a symbol, by type |
| LineTexts.WrittenLogical | support/kconfig/confdata.c:442-462 | the line of a boolean or tristate, in full |
| LineTexts.WrittenText | support/kconfig/confdata.c:463-475 | the line of any other symbol, in full |
| LineTexts.EscapedParts | support/kconfig/confdata.c:420-440 | texts are escaped character by character |
| LineTexts.GuardedRead | support/kconfig/confdata.c:150-159 | whatever follows a backslash stands for itself, be the backslash needed or not |
| LineTexts.AssignedLine | support/kconfig/confdata.c:280-290 | a value ends at the newline, a carriage return before it, or the end of the buffer |
| LineTexts.LogicalLine | support/kconfig/confdata.c:126-143 | what a line gives a declared boolean or tristate: n, m and y as they say, except m for a boolean |
| LineTexts.ValueLine | support/kconfig/confdata.c:126-143 | the line of a value sets that value, but m does not change a boolean |
| LineTexts.TextLine | support/kconfig/confdata.c:150-172 | which values a string, int or hex takes |
| LineTexts.UnsetLine | support/kconfig/confdata.c:254-277 | what "is not set" does, by type, and to a symbol that is not there |
| LineTexts.UnknownLine | support/kconfig/confdata.c:291-301 | what a value does for a symbol that is not there |
| LineTexts.UntypedLine | support/kconfig/confdata.c:291-301 | what a value does for a symbol without a type |
| LineTexts.UnsetExactly | support/kconfig/confdata.c:248-256 | which lines say that a symbol is not set |
| LineTexts.AssignExactly | support/kconfig/confdata.c:280-290 | which lines give a symbol a value, and which |
| LineTexts.LineTaken | support/kconfig/confdata.c:245 | how much of the file is taken at once |
| LineTexts.IntTextExactly | support/kconfig/symbol.c:541-553 | the valid ints are exactly the decimal numbers as one writes them, and -0 |
| LineTexts.HexTextExactly | support/kconfig/symbol.c:554-562 | the valid hexadecimals are exactly one or more hexadecimal digits, with or without 0x or 0X |
| ReadBack.UnquoteEscaped | support/kconfig/confdata.c:150-159 | what the reader makes of an escaped text is the text |
| ReadBack.UnquoteCut | support/kconfig/confdata.c:160-163 | a text cut short is never taken for a value |
| ReadBack.LineRestored | support/kconfig/confdata.c:245-311 | the first line read of what is written for a symbol restores its value if and only if the value can be stored and the line fits, and touches no other symbol |
| ReadBack.ReadWholeLine | support/kconfig/confdata.c:245-311 | a line that fits is read as a whole, changes its own symbol only, and restores it if and only if the value can be stored |
| ReadBack.FileRestored | support/kconfig/confdata.c:227-311 | reading a written file of one-line values restores a symbol in it if and only if its value can be stored, and changes no other, for S_DEF_USER and S_DEF_AUTO |
| ReadBack.FileReplaces | support/kconfig/confdata.c:224-311 | reading a file replaces all values there were |
| Readers.Remove | support/kconfig/confdata.c:158 | the text moves over the backslash, with its terminator |
| Readers.Unescape | support/kconfig/confdata.c:153-163 | in the buffer: where the closing quote is, and the text without its backslashes in place |
| Readers.ConfReader.SetSymVal | support/kconfig/confdata.c:119-179 | what a value does to a symbol, by type |
| Readers.ConfReader.NotSetName | support/kconfig/confdata.c:248-256 | which comment lines name a symbol |
| Readers.ConfReader.NameAndValue | support/kconfig/confdata.c:280-290 | the name, and the value without newline and carriage return, cut in place |
| Readers.ConfReader.Find | support/kconfig/confdata.c:291-301 | which symbol a line is for, and when a new one is made |
| Readers.ConfReader.Fgets | support/kconfig/confdata.c:245 | a line, or as much as fits the buffer |
| Readers.ConfReader.ReadLine | support/kconfig/confdata.c:246-311 | a line does what its text means |
| Readers.ConfReader.ReadSimple | support/kconfig/confdata.c:227-311 | the buffer loop does what the sequence of lines means, starting from cleared values |
| ConfChange.DiffersExactly | support/kconfig/confdata.c:704-744 | a symbol differs from what auto.conf says if and only if its line differs |
| ConfChange.ChangeDetectionExact | support/kconfig/confdata.c:704-744 | after writing one state and reading it back, a symbol whose value could be stored differs in a second state if and only if its line does |
| ConfChange.UnreadableAlwaysDiffers | support/kconfig/confdata.c:705-741 | an unchanged symbol is reported if and only if its line cannot be read back |
| ConfChange.SplitConfig | support/kconfig/confdata.c:681-744 | exactly the changed symbols that are not SYMBOL_AUTO are touched, each once |
| ConfChange.WriteAutoConf | support/kconfig/confdata.c:861-867 | auto.conf holds the lines of the symbols with SYMBOL_WRITE, in order |
| ConfChange.TouchedExactly | support/kconfig/confdata.c:681-744 | after auto.conf was written from the state before, the touched symbols are exactly those that are not SYMBOL_AUTO and whose lines differ, among those whose old value could be stored |
| SymbolHash.StrHash | support/kconfig/symbol.c:770-777 | the fnv32 hash in 32-bit arithmetic |
| SymbolHash.FnvKnown | support/kconfig/symbol.c:770-777 | published values of the hash |
| SymbolHash.HashTable.Lookup | support/kconfig/symbol.c:779-818 | the table is a map from names and kinds to symbols: found again, or made and put first in its bucket; y, m and n are fixed |
| SymbolHash.HashTable.Find | support/kconfig/symbol.c:820-845 | finds the symbol of that name made last that is no constant, and none only if there is none |
| SymbolHash.Interned | support/kconfig/symbol.c:779-818 | no two symbols have the same name and kind, in whatever bucket, and none is called y, m or n |

## Left out

- MenuTrees.MenuTree.FinalizeTree: entries are numbered and their pointers kept in maps, instead of objects on the heap; choices, the accumulation of selects in `rev_dep.expr`, the assignment of `dir_dep.expr` and properties other than the prompt are not part of it.
- Readers.Unescape: when a backslash is the last character of a line, the C code goes on reading behind the terminator; the model stops there and says so.
- Readers.ConfReader.NotSetName: for a last line that is a lone # without newline the C code compares what an earlier line left in the buffer; the model skips the line.
- Readers.ConfReader.ReadSimple: choice states, warnings and the change count are not modelled; a file is a text, and the search for a default file is left out.
- Choices.OneMemberIsYes: choices are calculated on given values of the symbols outside them, not by the memoising evaluator; tristate choices that are m are left out.
- FinishedMenus.FinishedTreeExplained: says nothing of an entry whose way down has a doubtful step: an adoption by elimination, by an entry without a prompt, which has no condition to compare with, or under a valuation for which the comparison with n is wrong (see EliminationImplies). Other entries are not affected.
- MenuTrees.MenuTree.Finalize: as FinalizeTree.
- MenuTrees.MenuTree.Propagate: properties other than the prompt are not narrowed in the tree, and `rev_dep.expr` does not collect selects.
- Evaluators.SymbolTable.CalcLogical: choices and their members are in the module Choices instead.
- Evaluators.SymbolTable.ClearAllValid: the modules symbol is not calculated again, because its value is fixed.
- CheckDeps.Checker.CheckSymbol: choices and their members are left out.
- ReadBack.FileRestored: for files in which each line fits the buffer and no value holds a newline; see LineRestored for the others.
- ConfChange.TouchedExactly: a symbol whose old value could not be stored is compared with what was read instead; if unchanged, it is touched (`UnreadableAlwaysDiffers`).
- Databases.TreeGivesFinalized: that `dir_dep.expr` and the P_SYMBOL property are taken from the entry is assumed; the tree does not assign them.
- Choices.ChoiceCalculator.CalcChoiceValue: SYMBOL_WRITE and the evaluation of the members by recursion are left out.
- Defconfig.MinimalStep: the rule that skips the default member of a choice is left out.
- SetValue.SetTristateValue: what setting a member does to its choice is in Choices.PickDecides instead.
- ReadBack.LineRestored: what is left of a value that spans lines or does not fit is read as further lines, and may set other symbols.
- Readers.ConfReader.ReadLine: the state of choices is not updated.
- Engine.CheckAndCalculate: for databases in which every direct dependency comes from a menu entry that menu_finalize has narrowed, as all do that the parser builds; of a symbol with several entries the model leaves open which one it comes from. Where other kinds of properties, or conditions of P_SYMBOL properties that the symbol does not read, are followed too, a reported recursion need not be one of the calculation.
- MenuWalk.WriteAll: which symbols carry SYMBOL_WRITE is given, and comments for menus without a symbol are not written.
- Evaluators.SymbolTable.CalcValue: choices, ranges (`sym_validate_range`), SYMBOL_AUTO and the feedback of the modules symbol during its own calculation; the modules value is fixed.
- CheckDeps.CheckAll: choices and their members are left out, and the text of a report.
- Defconfig.MinimalExpands: symbols outside choices, and the user's values as a map instead of the lines of a file.
- Adoption.EliminationImplies: for valuations in which negated operands are n or y and text symbols are not operands, because elsewhere the comparison with n that comes first is wrong (`TransCompareNegation`, `TransCompareText`) and the property fails (`EliminationMisleads`).
- LiteralChains.AdoptsExactly: for conjunctions of booleans; `EliminatesExactly` is about all conditions that come out as conjunctions of literals, and for others only the implication is proved (`EliminationImplies`).
- LiteralChains.CancelsExactly: for chains of literals with an operand other than a neutral constant.
- Choices.MemberCalculated: that the select bound of a member stays n is given, because `sym_calc_visibility` returns before it for members.
- MenuConditions.ConditionsExact: for symbols that are n or y and conditions without the constant m, because elsewhere removing contradictions may change an m (`ContradictionBecomesNo`) and the rewrite for non-tristates lower a y (`PromptLowered`); `ConditionsHold` says what is true of all valuations.
- Transformations other than the removal of duplicates are recursions that build trees; that the C code overwrites nodes in place and shares or frees them is not modelled. In `expr_eliminate_dups` the tree is overwritten through slots.
- E_LIST and E_RANGE expressions, and `expr_simplify_unmet_dep`, which only serves a warning.
- Names are sequences of 7-bit characters in the hash; bytes above 127, which the C code sign-extends, are not.
- `sym_re_search`, `sym_expand_string_value`, `conf_expand_value`, environment variables: easy string work.
- The writing of `autoconf.h` and `tristate.conf` beyond the lines themselves, file names, renaming and directories.
- The parser and lexer of the Kconfig language and all user interfaces.
