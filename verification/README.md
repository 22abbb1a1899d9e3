# Kconfig engine and hash tools: a verified model

This Dafny project models two parts of the build scripts and proves what they are for.

**The Kconfig engine** (`scripts/config`). Symbols are bool, tristate or text; dependencies are
expressions over the values n < m < y.

- *Expressions* (`Tristate`, `Expr`, `Comparing`, `Eliminate`, `Matching`, `Dups`, `Transform`, `Print`): every
  simplification of `expr.c` as a function on expressions, with proofs that it keeps the value, what
  normal form it reaches, and why its loops end. `ExprHeap` and `DupsHeap` run the same
  simplifications as the program does, on nodes that are overwritten, moved and freed; each method is
  proved to compute the function of the same name, to touch no other node and to free what drops
  out.
- *Dependencies* (`Depends`, `Declarations`): how `menu_finalize` propagates dependencies from parents
  to entries and properties, collects selects and definitions, and decides about automatic submenus;
  and that the declarations it makes give every symbol the value it has as written.
- *Evaluation* (`Config`, `Meaning`, `Evaluation`, `Setting`, `Choices`, `Picking`, `Kconfig`, `Commands`):
  `Config` says what each function of `symbol.c` does to the state of all symbols, caching and
  choices included. `Meaning` defines the values recursively, without a cache. `Kconfig` and
  `Commands` are the program's own methods on shared cells, proved to do what `Config`, `Minimal` and
  `Confdata` say. `Examples` holds configurations in which a value is lost or does not stick.
- *Cycle check* (`Cycles`): the depth-first search with its two marks and its stack, over symbols and
  groups of a choice with its members.
- *Configuration files* (`Minimal`, `Text`, `Confdata`, `Reading`, `Groups`): what a minimal configuration
  may leave out, quoting, which lines are accepted, and the round trip through the text of a file,
  with a choice or without.
- *Menus* (`Menus`, `MenuHeap`, `Origins`, `Submenus`, `Taking`): the restructuring of the menu tree, on trees and
  on the next, list and parent links, the walk that relies on these links, where the entries of the
  finished menu come from and when they show, and the writing of a minimal configuration along it.
- *Macros* (`Preprocess`, `Macros`, `Arguments`): recursive expansion, with its termination measure, and
  what calls expand to.

**The hash tool** (`scripts/mkhash.c`): `Words`, `Blocks`, `Sha256` and `Md5` state the two hash
functions as FIPS 180-4 and RFC 1321 define them, and prove that the program's contexts compute them
for every message in every division into chunks. `Primes` and `Sines` prove that the constants are the
roots of primes and the sines that the standards name.

`dafny verify dfyconfig.toml` checks everything.

## Where the code does less than expected

Some properties one would expect are false of the code. For each, a lemma gives an input, or the
exact condition is proved.

- A minimal configuration can lose a value: a tristate that is visible as m and selected as m, set by
  the user, with a default of y, cannot be changed and is not written; read back without its user
  value it becomes y (`Examples.ValueLost`). A text that is visible no higher than it is selected, and
  a symbol that is never written, are lost in the same way. `Minimal.MinimalLosesNothing` shows there
  is no other way.
- Setting a symbol to the value it has can change it: a default may exceed the visibility of the
  symbol, a user value may not (`Setting.SettingAgain`, `Examples.SettingTheSameChanges`).
- A value in range does not stick, and `sym_get_string_default` is not the default, exactly for a
  symbol that is selected while its direct dependency is n (`Setting.SettingSticks`,
  `Minimal.StringDefaultIsDefault`). For a visible symbol this takes definitions with and without
  dependencies (`Examples.SettingDoesNotStick`); otherwise every value in range sticks
  (`Declarations.SettingSticksAsDefined`).
- The comment above `expr_eq` describes operands as sets; the code compares them as multisets
  (`Matching.RepeatedOperandsDiffer`).
- `expr_join_and` compares constants by name, but comparisons treat a numeral such as "2" as a value
  (`Dups.NumeralBreaksJoin`, `Dups.EqualUnequalRule`).
- `expr_trans_bool` below NOT changes whether an expression is n (`Transform.TransBoolUnderNot`).
  It keeps all values exactly where no tristate in a converted test is m
  (`Transform.TransBoolKeepsParts`).
- Constants on the left of a comparison escape `expr_transform`
  (`Transform.ConstantOnTheLeftStays`), and they are all that escapes it
  (`Transform.TransformFullyNormal`).
- `expr_trans_compare` reads NOT as two-valued (`Transform.TransCompareUnderNot`,
  `Transform.TransCompareExact`). So an item can show in the submenu of a symbol although neither the
  symbol nor its prompt does, if it is m because of an m under NOT (`Depends.SubmenuUnderNot`,
  `Depends.SubmenuShows`), and not otherwise (`Depends.SubmenuShowsPlainly`).
- An item can get into the submenu of a symbol and show without it, through a symbol without a prompt
  that took it and was flattened (`Submenus.Stranger`). Where no symbol without a prompt takes an item,
  every entry of the finished menu shows only where the one above it does
  (`Submenus.FinishedMenuShows`). What moves up into a submenu is otherwise the content of blocks
  without a prompt, which carries the dependency of its block; nothing moves up exactly if every item
  taken that has children has a prompt (`Submenus.SubmenuIsTaken`, `Submenus.SubmenuOfSiblings`).
- A select by a bool under the condition X!=n selects only m where X is m (`Depends.SelectLowered`).
  Selects that test no tristate that is m, and those by tristates, keep their value
  (`Depends.SelectsKept`), and with them all symbols theirs (`Declarations.SimplifiedValues`).
- Several definitions of a symbol are combined wrongly when one of them has no dependencies
  (`Depends.DefinitionForgotten`, `Depends.DefinitionsMix`).
- A macro reference with exactly sixteen commas of its own writes its last piece beyond the array of
  pieces; one with more is reported, one with fewer fits (`Preprocess.SixteenCommas`,
  `Preprocess.OverrunInput`, `Macros.SplitInPlace`). The model ends there, with an outcome of its own.

## Model

The functions that only compute (`Eliminate.EliminateYn`, `Dups.EliminateDups`, `Transform.Transform`
and so on) have no row of their own; the rows below are the lemmas about them and the methods that
refine them.

| member | source | states |
|---|---|---|
| Expr.EvalAgrees | scripts/config/expr.c:1030-1102 | the value of an expression depends only on the symbols that occur in it |
| Expr.CmpWithLetter | scripts/config/expr.c:1044-1097 | for a bool or tristate symbol, comparing equal to the constant n, m or y means having that value |
| Expr.CmpWithConst | scripts/config/expr.c:998-1042 | for any constant text: comparing equal to it means having the value the text denotes, where numerals such as "2" denote a value too |
| Comparing.StrCmpOrders | scripts/config/expr.c:1075-1079 | strcmp, which decides between texts, is the lexicographic order |
| Comparing.NumeralParses | scripts/config/expr.c:998-1042 | every numeral, white space, a sign, a prefix and digits of its system, enters comparisons with its positional value, unless this is out of range |
| Comparing.ParsedIsNumeral | scripts/config/expr.c:998-1042 | conversely, what enters comparisons as a number is such a numeral |
| Comparing.TextsCompare | scripts/config/expr.c:1065-1097 | two strings, and texts of which one is not a number, compare by any of the six relations in the lexicographic order |
| Comparing.NumbersCompare | scripts/config/expr.c:1065-1097 | numbers compare by any of the six relations in the order of their values; with a hex symbol, in the order of the values modulo 2^64 |
| Comparing.StringEquals | scripts/config/expr.c:1065-1097 | a string equals a constant text exactly if it is that text, where one of the two is not a number |
| Comparing.EmptyIsText | scripts/config/expr.c:998-1042 | the empty text is not a number |
| Comparing.UnsetTexts | scripts/config/symbol.c:319-337 | a word that names no symbol stands for itself; a text symbol without a value is empty |
| Comparing.WordIsText | scripts/config/expr.c:1065-1097 | an unquoted word that names no symbol compares as the same text in quotes |
| Comparing.LogicalsCompare | scripts/config/expr.c:1065-1097 | two bools or tristates compare by value |
| Eliminate.EliminateYnSound | scripts/config/expr.c:316-396 | removing y and n operands preserves the value under every assignment |
| Eliminate.EliminateYnComplete | scripts/config/expr.c:316-396 | no y or n is left as an operand anywhere; the expression gets strictly smaller if it had one and stays as it is otherwise |
| Eliminate.EliminateEqualFactors | scripts/config/expr.c:150-190 | one walk over two expressions under one operator removes a common part C: each input equals C combined with its output, under every assignment |
| Eliminate.EliminateEqFactors | scripts/config/expr.c:221-241 | expr_eliminate_eq removes a common factor under one operator, which given back to either output restores the value of the input |
| Eliminate.ExprEqSound | scripts/config/expr.c:252-303 | expr_eq answers true only for expressions with the same value under every assignment |
| Matching.EliminateEqualMatches | scripts/config/expr.c:150-190 | on expressions without nested y and n operands, what the walk leaves on each side is the multiset difference of the operands (up to order and grouping at every level), counted with multiplicity |
| Matching.EliminateEqMatches | scripts/config/expr.c:221-241 | the same for the two passes of expr_eliminate_eq including the final clean-up |
| Matching.ExprEqIsFlatEquality | scripts/config/expr.c:252-303 | on expressions without y and n operands, expr_eq is true if and only if both are equal up to order and grouping of operands at every level |
| Matching.RepeatedOperandsDiffer | scripts/config/expr.c:246-251 | the comment on expr_eq promises more than the code does: a && (a && b) and a && b are not equal for it |
| Dups.JoinPairSound | scripts/config/expr.c:431-587 | every rule of expr_join_or and expr_join_and preserves the value of plain expressions, under every assignment that respects the types |
| Dups.TestsOfOneSymbolJoin | scripts/config/expr.c:459-577 | exactly which pairs of tests of one tristate symbol are joined |
| Dups.SymbolWithTestJoins | scripts/config/expr.c:479-537 | exactly when a symbol is joined with a test of it, and that a symbol is joined with its negation under OR only for a bool |
| Dups.EqualUnequalRule | scripts/config/expr.c:539-553 | the rule for (a="b") && (a!="c") preserves the value of a tristate if and only if b and c do not compare equal to the same value |
| Dups.NumeralBreaksJoin | scripts/config/expr.c:540-546 | the input for which that rule changes the value: (a="2") && (a!=y) at a = y |
| Dups.Dups1Sound | scripts/config/expr.c:596-650 | one pass over all pairs of operands preserves the value |
| Dups.Dups1Marks | scripts/config/expr.c:596-650 | a pass that joined something leaves a y or n operand, so that the following clean-up makes the expression strictly smaller |
| Dups.Dups1Settles | scripts/config/expr.c:596-650 | a pass joins nothing if and only if no two operands on any level can be joined, and then changes nothing |
| Dups.EliminateDupsSound | scripts/config/expr.c:664-686 | expr_eliminate_dups preserves the value of plain expressions under every assignment that respects the types |
| Dups.EliminateDupsSettles | scripts/config/expr.c:664-686 | the loop ends in an expression in which nothing more can be joined, never a larger one; such expressions are left alone |
| Dups.EqualOperandsJoin | scripts/config/expr.c:431-435 | operands that expr_eq takes to be equal are joined to one of them |
| Dups.NoDuplicatesLeft | scripts/config/expr.c:664-686 | after expr_eliminate_dups no two operands are left that expr_eq takes to be equal, on any level |
| Transform.TransformSound | scripts/config/expr.c:694-849 | expr_transform preserves the value under every assignment that respects the types |
| Transform.TransformNormal | scripts/config/expr.c:694-849 | its result is in normal form: NOT only directly above a symbol that is not y or n, and no bool compared for equality with n, m or y; normal forms are left alone |
| Transform.TransformKeepsReversed | scripts/config/expr.c:716-759 | tests with the constant n, m or y on the left of a bool are neither removed nor made |
| Transform.TransformFullyNormal | scripts/config/expr.c:694-849 | the result is free of tests of bools against n, m or y on either side if and only if the input has no test with the constant on the left |
| Transform.ConstantOnTheLeftStays | scripts/config/expr.c:716-759 | an input for which it is not: y=A stays for a bool A |
| Transform.TransBoolKeepsNo | scripts/config/expr.c:402-426 | where no test that it converts occurs under NOT, expr_trans_bool keeps whether the value is n, and never raises it |
| Transform.TransBoolUnderNot | scripts/config/expr.c:402-426 | an input for which it does not, with a comparison under NOT |
| Transform.TransBoolKeepsParts | scripts/config/expr.c:402-426 | expr_trans_bool keeps the value of an expression and of all its parts, below NOT too, if and only if no tristate in a test that it converts is m |
| Transform.TransCompareReads | scripts/config/expr.c:922-985 | expr_trans_compare to n or y is y where the expression, read with a two-valued NOT, has that value, and n elsewhere, for every expression and assignment |
| Transform.TransCompareExact | scripts/config/expr.c:922-985 | so the result is y exactly where the value is the one compared with, and n elsewhere, if and only if this reading agrees with the value |
| Transform.TwoValuedReads | scripts/config/expr.c:953-954 | it agrees where no m occurs under NOT and only bools and tristates stand alone |
| Transform.TransCompareWithMod | scripts/config/expr.c:922-985 | comparing with m is exact for a symbol and for a comparison, and leaves an AND or OR as it is |
| Transform.TransCompareUnderNot | scripts/config/expr.c:953-954 | the input for which it does not: !A with A = m |
| Print.PrintParse | scripts/config/expr.c:1104-1228 | what expr_print prints is read back with the precedence and associativity of the grammar as the left-grouped expression, which has the same value under every assignment |
| Print.LeftGroupedSound | scripts/config/parser.y:88-92 | grouping chains of one operator to the left does not change the value |
| ExprHeap.Exprs.constructor | scripts/config/expr.c:12-50 | no nodes at first |
| ExprHeap.Exprs.Alloc | scripts/config/expr.c:12-50 | a new node, all others as they were |
| ExprHeap.Exprs.FreeTree | scripts/config/expr.c:107-134 | exactly the nodes of the expression are freed |
| ExprHeap.Exprs.Copy | scripts/config/expr.c:66-105 | an equal expression on new nodes only; the original is untouched |
| ExprHeap.Exprs.EliminateYn | scripts/config/expr.c:316-396 | the nodes are rewritten in place, at the same root, into the expression of EliminateYn; nodes that drop out are freed and no other node changes |
| ExprHeap.Exprs.Transform | scripts/config/expr.c:694-849 | the same for expr_transform, which reuses nodes for the rules of De Morgan and may return another root |
| ExprHeap.Exprs.TransBool | scripts/config/expr.c:402-426 | the same for expr_trans_bool |
| ExprHeap.Exprs.EliminateEqual | scripts/config/expr.c:150-190 | both expressions are rewritten together, sharing no nodes before or after, and trans_count grows by the number of removed pairs |
| ExprHeap.Exprs.EliminateEq | scripts/config/expr.c:221-241 | both passes and the clean-up, in place |
| ExprHeap.Exprs.ExprEq | scripts/config/expr.c:252-303 | the answer of expr_eq; afterwards all copies are freed, so that the nodes and trans_count are exactly as before |
| DupsHeap.JoinOperands | scripts/config/expr.c:431-587 | the rules, decided on the fields of the nodes: either no node changes and the operands cannot be joined, or the joined expression is on new nodes |
| DupsHeap.JoinAt | scripts/config/expr.c:627-648 | two operands of one expression are freed, one pointer is made to lead to the unit and the other to the joined expression; nothing else changes and trans_count counts it |
| DupsHeap.VisitAt | scripts/config/expr.c:596-649 | one comparison, with the nested simplification of the first operand in its place |
| DupsHeap.PassOver | scripts/config/expr.c:596-649 | the walk over two parts of one expression, which may overlap or be the same: all pairs in the order of the model on values |
| DupsHeap.Dups1 | scripts/config/expr.c:596-650 | one pass of expr_eliminate_dups1 with both arguments the same expression, in place |
| DupsHeap.EliminateDups | scripts/config/expr.c:664-686 | the outer loop in place: same root, result of the model on values, trans_count restored, every dropped node freed |
| Depends.RewriteMMeans | scripts/config/menu.c:81-104 | after rewrite_m, m is n where modules are off, and nothing changes where they are on |
| Depends.AllocAndMeans | scripts/config/expr.c:52-57 | conjunction where a missing expression is y |
| Depends.AllocOrMeans | scripts/config/expr.c:59-64 | disjunction where a missing expression contributes nothing |
| Depends.PropagateSound | scripts/config/menu.c:350-359 | the propagated dependency of an entry is its own dependency and the one of its parent, after all simplifications |
| Depends.PropagateSettles | scripts/config/menu.c:350-359 | what is propagated offers nothing more to join, and it is missing only if both parts are |
| Depends.ReducedSettles | scripts/config/menu.c:455-457 | the same for the reduced dependency |
| Depends.PathMeans | scripts/config/menu.c:333-359 | over any path from the root the propagated dependency is the minimum of all dependencies on it; below a choice the value of the choice replaces what lies above |
| Depends.EliminateDupsKeeps | scripts/config/expr.c:664-686 | removing duplicates keeps every property of expressions that the joining of operands keeps: NOT only at symbols, only bools and tristates alone, no further symbols |
| Depends.PropagateKeeps | scripts/config/menu.c:350-359 | propagated dependencies are in this shape, and mention no further symbols |
| Depends.ConditionSound | scripts/config/menu.c:394-405 | the propagated condition of a property is n exactly where its own condition or the dependency of its entry is n, never higher than their minimum, and exactly their minimum for tristates, and for other types where no tristate in a converted test is m |
| Depends.PropagateNoMod | scripts/config/menu.c:350-402 | conditions in which no tested tristate is m stay so when they are propagated |
| Depends.SelectsMean | scripts/config/menu.c:411-419 | the collected reverse dependency is the highest over all selects of the selecting symbol and the condition |
| Depends.SelectLowered | scripts/config/menu.c:403-415 | an input for which the conversion for bools lowers a select: by a bool if X!=n, where X is m |
| Depends.SelectsKept | scripts/config/menu.c:394-419 | for any selects, collected with their conditions as menu_finalize propagates and converts them: something selects exactly where it does as written, never more, and just as much if each select is by a tristate or tests no tristate that is m |
| Depends.DirDepMeans | scripts/config/menu.c:503 | the direct dependency collected over all definitions of a symbol |
| Depends.DefinitionsMix | scripts/config/menu.c:503 | it is the highest of the definitions if and only if no definition without dependencies is mixed with definitions none of which is y |
| Depends.DefinitionForgotten | scripts/config/expr.c:59-64 | the input for which it is not: a definition without dependencies is dropped next to one with some |
| Depends.ContainsIsOccurs | scripts/config/expr.c:851-877 | expr_contains_symbol holds if and only if the symbol occurs |
| Depends.DependsSymbolSound | scripts/config/expr.c:879-906 | an expression that expr_depends_symbol accepts is n wherever the symbol is n |
| Taking.DependsSymbolIsOperand | scripts/config/expr.c:879-906 | expr_depends_symbol holds if and only if one of the operands of AND is the symbol, or tests it for being y, m or not n |
| Depends.ReducedReads | scripts/config/menu.c:455-457 | the reduced dependency is y where the dependency, read with a two-valued NOT, is not n, and n elsewhere |
| Depends.ReducedMeans | scripts/config/menu.c:455-457 | it is y exactly where the dependency is not n if and only if this reading agrees with the value |
| Depends.SupersetSound | scripts/config/menu.c:479-490 | when the second expression reduces to y, the first one never exceeds it |
| Taking.SupersetIsSubset | scripts/config/expr.c:221-241 | the second expression reduces to y if and only if one of the two is an AND and its operands are among those of the first, counted with multiplicity |
| Taking.BelongsExactly | scripts/config/menu.c:461-490 | an item belongs into the submenu of a symbol if and only if its dependency mentions the symbol, and has such an operand or all operands of the condition of the prompt, as the code reduces both |
| Depends.SubmenuDepends | scripts/config/menu.c:455-490 | for an entry that belongs into the submenu of a symbol, either its dependency is n wherever the symbol is, or the condition of the prompt of the symbol holds wherever the dependency does, both as the code reads them |
| Depends.ReadsBelow | scripts/config/expr.c:953-954 | of propagated dependencies the code reads no more than they say, and all of them where they are y |
| Depends.SubmenuShows | scripts/config/menu.c:455-490 | so an entry taken into the submenu that is y shows only where the symbol is not n or its prompt is visible; one that is m too, unless the code takes it to be n |
| Depends.SubmenuShowsPlainly | scripts/config/menu.c:455-490 | an entry of which no m occurs under NOT shows only there |
| Depends.SubmenuUnderNot | scripts/config/menu.c:479-490 | the input for which it shows otherwise: (S or X) and not B under the prompt condition B=n, at S = n, X = y, B = m |
| Declarations.BaseSame | scripts/config/menu.c:350-359 | the simplified dependency of a definition has the value of the conjunction as it was written |
| Declarations.ConditionSame | scripts/config/menu.c:394-405 | the simplified condition of a prompt or default has the same value for tristates, and is n in the same cases for other types |
| Declarations.ConditionSettles | scripts/config/menu.c:394-405 | as menu_finalize puts them together, nothing more can be joined in conditions of tristates, and no test that expr_trans_bool converts is left in others |
| Declarations.CollectsInOrder | scripts/config/menu.c:382-419 | prompts and defaults of all definitions are collected in order, each one with its own condition and the dependency of its definition |
| Declarations.MentionsNoMore | scripts/config/menu.c:350-405 | after simplification no symbol depends on further symbols |
| Declarations.SelectsSame | scripts/config/menu.c:394-419 | the collected selects or implies of a symbol, from conditions as written and as propagated and converted, are n in the same cases, and the same if all of them are exact |
| Declarations.SimplifiedValues | scripts/config/menu.c:333-419 | in an acyclic configuration every symbol has, after all simplifications of menu_finalize, the value it has with its dependencies, conditions, selects and implies as written, if no select of a symbol that is not a bool is by a bool and tests a tristate that is m |
| Declarations.ExactWithoutModules | scripts/config/menu.c:333-419 | that is always so where modules are off |
| Declarations.SimplifiedTruth | scripts/config/menu.c:333-419 | the same with the value of modules, as the evaluation theorems use it |
| Declarations.VisibleNeedsDependency | scripts/config/menu.c:394-405 | a symbol is visible only where its direct dependency is not n, unless definitions with and without dependencies are mixed |
| Config.SetAllChoiceValues | scripts/config/confdata.c:1183-1201 | it clears valid marks but also the mark of the choice, so that the measure still goes down; with it the evaluation terminates on every graph |
| Config.CalcValue | scripts/config/symbol.c:299-440 | sym_calc_value terminates on every graph, cyclic ones and ones with choices included, by the measure (pending choices, symbols without a value, size) |
| Kconfig.Kconfig.constructor | scripts/config/symbol.c:14-35 | no symbol has a value or a user value at first |
| Kconfig.Kconfig.CalcExpr | scripts/config/expr.c:1030-1102 | expr_calc_value over the cached values of the symbols |
| Kconfig.Kconfig.StringValue | scripts/config/symbol.c:744-766 | sym_get_string_value: letters for bool and tristate, the text otherwise |
| Kconfig.Kconfig.CalcVisibility | scripts/config/symbol.c:172-233 | sym_calc_visibility: the cells of the symbol and of everything asked for end up as the specification says |
| Kconfig.Kconfig.CalcDependencies | scripts/config/symbol.c:205-232 | direct dependencies, selects and implies, in this order |
| Kconfig.Kconfig.FindDefault | scripts/config/symbol.c:78-88 | the first default whose condition is not n |
| Kconfig.Kconfig.ChoiceDefault | scripts/config/symbol.c:241-265 | the default of a choice: the first that names a visible member, else the first visible member |
| Kconfig.Kconfig.CalcMembers | scripts/config/symbol.c:274-283 | all visibilities of members are calculated; tells whether every visible member has a user value |
| Kconfig.Kconfig.CalcChoice | scripts/config/symbol.c:267-297 | the selected member; without one the choice falls back to n |
| Kconfig.Kconfig.CalcLogical | scripts/config/symbol.c:347-387 | the value of a bool or tristate from user value, defaults, implies and selects |
| Kconfig.Kconfig.CalcText | scripts/config/symbol.c:388-404 | the text of a string |
| Kconfig.Kconfig.CalcValue | scripts/config/symbol.c:299-440 | sym_calc_value as methods on the shared cells gives the state of the specification, and terminates |
| Kconfig.Kconfig.Finish | scripts/config/symbol.c:414-439 | the end of sym_calc_value: modules_val is kept up to date, the visible members of a written choice are written, and a pending choice resets its members |
| Kconfig.Kconfig.SetAllChoiceValues | scripts/config/confdata.c:1183-1201 | every member without a user value gets n, and the choice is no longer pending |
| Meaning.NoModWithoutModules | scripts/config/symbol.c:37-48 | no bool is ever m, and no tristate where modules are off |
| Meaning.ConeIgnoresModules | scripts/config/symbol.c:416-419 | symbols on which modules_sym depends have the same value whatever modules_val is |
| Evaluation.VisibilityCorrect | scripts/config/symbol.c:172-233 | in a sound state a symbol that is being evaluated gets the visibility and dependencies of the recursive definition |
| Evaluation.CalcLogicalCorrect | scripts/config/symbol.c:347-387 | the same for the value of a bool or tristate |
| Evaluation.CalcTextCorrect | scripts/config/symbol.c:388-404 | the same for a text |
| Evaluation.CalcValueCorrect | scripts/config/symbol.c:299-440 | asking for a symbol of an acyclic graph gives it the outcome of the uncached recursive definition, keeps every value that is cached, and leaves everything of higher rank alone |
| Setting.ClearIsSound | scripts/config/symbol.c:442-451 | after sym_clear_all_valid the state is sound whatever was cached before |
| Setting.AskIsSound | scripts/config/symbol.c:299-440 | a sound state stays sound, and the symbol asked for gets its true outcome |
| Setting.CacheIsTransparent | scripts/config/symbol.c:299-451 | after any changes of user values and sym_clear_all_valid, asking for symbols in any order gives each one the value of the uncached recursive definition |
| Setting.SettingSticks | scripts/config/symbol.c:453-508 | a value in range that is set is the value of the symbol after re-evaluation, if and only if its direct dependency is not n or nothing selects it |
| Setting.WithinRangeIsExact | scripts/config/symbol.c:453-472 | a value is in range if and only if it is no higher than the visibility, which is higher than what selects the symbol, and the symbol evaluates to it when it is the user value; where the visibility is not higher, no user value makes a difference |
| Setting.SettingIsExact | scripts/config/symbol.c:453-508 | sym_set_tristate_value gives a symbol another value if and only if the symbol can have it and is not selected as high as it shows |
| Setting.SettingAgain | scripts/config/symbol.c:474-508 | setting the value a symbol has always succeeds, and the symbol keeps it if and only if it does not show, or is no higher than it shows, or is selected or implied at y |
| Setting.TextIsRefused | scripts/config/symbol.c:453-472 | no tristate value is in range for a symbol that is not a bool or tristate |
| Setting.SetBelowYes | scripts/config/symbol.c:474-508 | setting a symbol to n or m changes its user value only, also for members of choices |
| Declarations.SettingSticksAsDefined | scripts/config/symbol.c:453-508 | a value in range that is set is the value of the symbol after re-evaluation, for every symbol as menu_finalize declares it whose definitions all have dependencies or all have none |
| Examples.MixedDeclares | scripts/config/menu.c:350-419 | what menu_finalize makes of a symbol with two definitions, one of them without dependencies and the other one n, and a select |
| Examples.SettingDoesNotStick | scripts/config/symbol.c:378-382 | a configuration where it does not: two definitions, one of them without dependencies and the other one n, and a select at m |
| Examples.SettingTheSameChanges | scripts/config/symbol.c:474-481 | a configuration where setting a symbol to the value it has changes it: a tristate with a default above its visibility |
| Choices.ChoiceCorrect | scripts/config/symbol.c:267-297 | evaluating a choice gives it the value and the selected member it should have |
| Choices.MemberCorrect | scripts/config/symbol.c:299-440 | evaluating a member gives it the value it should have |
| Choices.OneMemberSelected | scripts/config/symbol.c:241-297 | whatever was cached, evaluating a choice and its members in any order leaves exactly one member at y if the mode is y and a member shows (the user's pick if it shows), and otherwise choice and members at n |
| Choices.SelectCorrect | scripts/config/symbol.c:267-297 | sym_calc_choice selects the member that should be selected, and the choice counts as set by the user only while all members that show do |
| Picking.SetMember | scripts/config/symbol.c:467-508 | a member that shows takes no value but y; once set to y it is the selected member, it is y and all others n, whatever is asked for in which order, and all members that show count as set |
| Picking.PendingChoiceSets | scripts/config/symbol.c:438-439 | the end of sym_calc_value for a choice whose members are still to be set: only the user values of members without one change, the choice counts as set and is evaluated again |
| Picking.PromptsAtYes | scripts/config/symbol.c:180-194 | in a choice that is y a tristate member shows only by prompts whose condition is y, those at m do not count |
| Picking.TristateMemberValue | scripts/config/symbol.c:347-387 | a tristate member is the pick or n where it shows as y, and what the user wants, at most m, where it shows as m |
| Picking.WriteMembersMarks | scripts/config/symbol.c:424-433 | a choice that is written makes exactly those of its members written that show |
| Picking.AllChoiceValues | scripts/config/confdata.c:1183-1201 | set_all_choice_values changes the user values of the members without one to n, sets the choice, and nothing else |
| Choices.FinalizedPromptNeedsChoice | scripts/config/menu.c:337-405 | what menu_finalize makes of the prompts of members meets the requirement of these theorems: members show only where the choice does |
| Cycles.Checker.CheckExprDeps | scripts/config/symbol.c:1105-1138 | the symbols of an expression in turn, until one is recursive; without a report the groups of all that count are checked |
| Cycles.Checker.CheckSymDeps | scripts/config/symbol.c:1140-1186 | everything a symbol depends on, with marks and stack restored; without a report all of it is checked |
| Cycles.Checker.CheckChoiceDeps | scripts/config/symbol.c:1188-1223 | a choice and then its members, all marked meanwhile; a result within the group becomes the choice; without a report the whole group is in order |
| Cycles.Checker.CheckDeps | scripts/config/symbol.c:1225-1257 | any reported cycle exists; members are checked with their choice; without recursive_is_error a result is a symbol that is still marked, so a call from outside returns none |
| Cycles.Checker.CheckAll | scripts/config/parser.tab.c:2268-2271 | what is reported is a cycle among symbols and choice groups, in which members may depend on their choice; if choices are mentioned only by their own members, a cycle is reported if there is one; it is an error if and only if moreover recursive_is_error is set; a silent run leaves a topological order |
| Cycles.MembersAreOne | scripts/config/symbol.c:1188-1223 | a member that depends on another member of its choice makes a cycle |
| Cycles.ChoiceAloneHasNoCycle | scripts/config/symbol.c:1159-1164 | that members depend on their choice, and that the defaults of a choice name members, makes none |
| Cycles.OrderedHasNoCycle | scripts/config/symbol.c:1225-1257 | a topological order of the groups rules out cycles |
| Cycles.SilentCheckRanks | scripts/config/parser.tab.c:2268-2273 | for a configuration without choices the order left by a silent run is a rank as the evaluation theorems need it |
| Minimal.StringDefaultIsDefault | scripts/config/symbol.c:674-742 | for symbols outside choices sym_get_string_default is what sym_calc_value computes without a user value, if and only if the direct dependency is not n or nothing selects the symbol |
| Declarations.StringDefaultAsDefined | scripts/config/symbol.c:674-742 | it is so for every visible symbol whose definitions are not mixed |
| Minimal.MinimalLosesNothing | scripts/config/confdata.c:754-825 | reading a minimal configuration back gives every symbol its value if and only if no symbol is lost: none has a user value that is never written or cannot be changed, and differs from what it gets without |
| Examples.ValueLost | scripts/config/confdata.c:780-785 | a configuration that loses a value: a tristate visible and selected at m, with the default y, set to n |
| Minimal.BoolsAreNeverLost | scripts/config/confdata.c:754-825 | of bools only those carrying SYMBOL_NO_WRITE can be lost |
| Commands.ClearAllValid | scripts/config/symbol.c:442-451 | all valid marks are cleared, and modules evaluated again |
| Commands.Recalculate | scripts/config/symbol.c:299-451 | the methods on the shared cells give each symbol asked for the value of the uncached recursive definition, after any changes of user values and in any order |
| Commands.IsDefaultMember | scripts/config/confdata.c:787-805 | whether a member is y and the one its choice selects by default, where the choice must not be n |
| Commands.SetTristate | scripts/config/symbol.c:474-508 | sym_set_tristate_value with its effect on choices; the result tells whether the value was in range |
| Commands.StringDefault | scripts/config/symbol.c:674-742 | sym_get_string_default with all evaluations it causes |
| Commands.WriteStep | scripts/config/confdata.c:771-807 | one entry of the minimal configuration: choices are skipped, the mark is cleared, and a line written only if the value can be changed, differs from the default, and is not that of the member its choice would select by default |
| Commands.WriteDefconfig | scripts/config/confdata.c:754-825 | the text of a minimal configuration and the state left behind |
| Commands.SetSymVal | scripts/config/confdata.c:234-293 | the user value read from a text, or a refusal |
| Commands.ReadLine | scripts/config/confdata.c:422-510 | one line of a configuration file |
| Commands.ConfReset | scripts/config/confdata.c:350-373 | all user values are forgotten, picks of choices included; every choice counts as set, to n |
| Commands.ReadText | scripts/config/confdata.c:375-514 | reading a whole configuration file |
| Text.EscapeStringValue | scripts/config/symbol.c:850-891 | the loop over plain spans returns the escaped text, in exactly the room it asked for |
| Text.UnescapeEscape | scripts/config/confdata.c:261-276 | unescaping the escaped text gives the string back, whatever follows the closing quote |
| Text.UnescapeInPlace | scripts/config/confdata.c:264-275 | the loop that unescapes in the line buffer with memmove computes the unescaped text, refuses a text without closing quote, and leaves everything before it alone |
| Text.DropFirst | scripts/config/confdata.c:269 | memmove drops the first character of a C string |
| Confdata.LogicalLineRoundTrip | scripts/config/confdata.c:593-614 | the line printed for a bool or tristate is read back as the same user value |
| Confdata.StringLineRoundTrip | scripts/config/confdata.c:593-614 | the line printed for a string is read back as the same user value, whatever quotes and backslashes it holds |
| Confdata.NumberLineRoundTrip | scripts/config/confdata.c:276-290 | the line printed for an int or hex symbol is read back as the same user value if its text is valid, and refused otherwise |
| Reading.ValidInt | scripts/config/symbol.c:539-553 | valid for an int is exactly the decimal text of a number, with a minus sign if need be |
| Reading.ValidHex | scripts/config/symbol.c:554-562 | valid for a hex symbol is exactly a row of hexadecimal digits, with the prefix 0x or without |
| Reading.LogicalValue | scripts/config/confdata.c:234-259 | the first character of the value of a bool or tristate decides: y, n, or m for a tristate; any other value is refused |
| Reading.StringValueRead | scripts/config/confdata.c:260-276 | a string without an opening quote keeps its value, one without a closing quote is refused |
| Reading.LineFormat | scripts/config/confdata.c:593-614 | the lines look as documented: CONFIG_X=y, or # CONFIG_X is not set, with strings in quotes |
| Reading.CarriageReturn | scripts/config/confdata.c:459-464 | a carriage return before the newline does not matter |
| Reading.OtherLines | scripts/config/confdata.c:424-505 | lines that begin otherwise change nothing |
| Reading.UnknownName | scripts/config/confdata.c:434-485 | nor do lines about unknown names |
| Reading.OtherComments | scripts/config/confdata.c:424-432 | nor do other comments about names |
| Reading.ConstantsStay | scripts/config/confdata.c:466-485 | the constants y, m and n cannot be set |
| Reading.UnsetLine | scripts/config/confdata.c:424-452 | a bool or tristate that is said not to be set is n; other symbols keep their value |
| Picking.ReadMemberLine | scripts/config/confdata.c:422-510 | the line of a member of a choice sets its user value; read as y it is the one picked, the choice takes the highest value read, and m after y makes the choice count as not set |
| Picking.ReadGroup | scripts/config/confdata.c:375-514 | reading a file that sets one member of a choice, and others or none to n, makes it the selected member wherever it shows: it is y and all others n, whatever is asked for in which order |
| Confdata.SplitValueLine | scripts/config/confdata.c:454-464 | the parts of a line with a value |
| Confdata.WriteDefconfigCorrect | scripts/config/confdata.c:754-825 | whatever was cached before, the minimal configuration holds exactly the lines of the symbols that are marked, changeable and different from their default, each once, in menu order |
| Confdata.DefconfigReadsBack | scripts/config/confdata.c:375-514 | reading this text into any state sets exactly the user values that were written |
| Confdata.DefconfigRoundTrip | scripts/config/confdata.c:754-825 | writing, reading into any state and evaluating again gives every symbol the value it had, if and only if no symbol is lost |
| Groups.MemberStep | scripts/config/confdata.c:771-807 | the turn of the loop for a member of a choice writes its line exactly if it is y and the choice is optional or would not select it by default, the first time it is met |
| Groups.WriteGroup | scripts/config/confdata.c:754-825 | whatever was cached before, the minimal configuration of symbols and a choice holds the lines of the symbols and at most one line for the choice, that of the selected member unless the choice selects it by default |
| Groups.NothingOfGroupLost | scripts/config/confdata.c:787-805 | what this line, or its absence, sets gives the choice and its members the values they had |
| Groups.GroupRoundTrip | scripts/config/confdata.c:754-825 | writing symbols and a choice, reading into any state and evaluating again in any order gives the choice and every member the value it had, if no other symbol is lost |
| Submenus.AbsorbTakes | scripts/config/menu.c:461-495 | a symbol collects the next siblings that it takes, up to the first that it does not; siblings taken by another one in the meantime are skipped |
| Submenus.TakenItemShows | scripts/config/menu.c:455-490 | with the decisions of menu_finalize on propagated dependencies: an item taken that is y shows only where the symbol is not n or its prompt is visible |
| Submenus.SubmenuIsTaken | scripts/config/menu.c:461-584 | all items that a symbol collects are taken by it, and they are exactly its children in the end if and only if each of them that has children has a prompt |
| Submenus.SubmenuOfSiblings | scripts/config/menu.c:461-584 | it is so for siblings of which those without a prompt have no children and, if symbols, do not take the sibling after them |
| Taking.SubmenuHolds | scripts/config/menu.c:461-501 | the submenu of a symbol without children holds exactly the next siblings with all that is below them, in order, up to the first that the symbol does not take; those at the front that depend on the symbol are among them |
| Taking.TakesExactly | scripts/config/menu.c:461-490 | the same decision for the entries of a menu, judged by the condition of their prompt or else by their dependency; a symbol without a prompt takes all that mention it |
| Submenus.NoticedWithoutMod | scripts/config/menu.c:479-490 | where no m occurs under NOT, every item that is m is noticed not to be n |
| Submenus.Inherits | scripts/config/menu.c:333-405 | every entry is no more than what the entry above it hands down, the dependency of that entry or the choice |
| Submenus.HandedIsPath | scripts/config/menu.c:333-359 | an entry hands down what the path to it propagates: its dependency and those above, or the symbol of the innermost choice |
| Submenus.QuietIs | scripts/config/menu.c:455-490 | no symbol without a prompt takes an item if and only if none is mentioned by what an item is judged by |
| Submenus.FinishedMenuShows | scripts/config/menu.c:305-612 | the whole run, from the dependencies as written: if no symbol without a prompt takes an item, every entry of the finished menu, wherever it was moved, shows only where the entry above it does or the symbol that took it |
| Origins.FinishedIsLinked | scripts/config/menu.c:426-584 | in the finished menu every node got below the one above it by steps of the parser or of symbols taking siblings, by way of nodes without a prompt only |
| Origins.NothingToFlatten | scripts/config/menu.c:574-583 | flattening changes nothing if and only if every node with children has a prompt |
| Origins.AbsorbTame | scripts/config/menu.c:461-495 | no item collected from such siblings needs to be flattened |
| Submenus.PromptlessTakesAll | scripts/config/menu.c:455-490 | a symbol without a prompt takes every item whose dependency mentions it |
| Submenus.Stranger | scripts/config/menu.c:574-583 | an input with an item in the submenu of a symbol that does not take it and that it does not mention: a symbol without a prompt took it, and was flattened |
| Submenus.FinalizeMenu | scripts/config/menu.c:305-612 | the restructuring from the root with the decisions of menu_finalize: order kept, every node finalised once, parent links right, no node below the root with children but without a prompt |
| Submenus.WriteMenu | scripts/config/confdata.c:808-822 | the minimal configuration written along the links of the finished menu |
| Submenus.TextIsLines | scripts/config/confdata.c:754-825 | the text has exactly one line for each symbol that is written, at its first entry, however many entries it has |
| Submenus.MenuText | scripts/config/confdata.c:754-825 | written along the finished menu, these lines are in the order of the menu as the parser left it |
| Menus.FinalizeKeepsOrder | scripts/config/menu.c:305-612 | finalising a node keeps the preorder sequence of all nodes, including the siblings it takes as submenu |
| Menus.FlattenKeepsOrder | scripts/config/menu.c:574-583 | flattening keeps the preorder sequence |
| Menus.FinalizeSolidifies | scripts/config/menu.c:574-583 | below a finalised node every node that has children has a prompt |
| Menus.CallsAreTheNodes | scripts/config/menu.c:426-494 | the recursive calls finalise every node of the finished tree exactly once, in document order |
| MenuHeap.Menu.constructor | scripts/config/menu.c:305-312 | the links as the parser left them |
| MenuHeap.Menu.Finalize | scripts/config/menu.c:305-612 | menu_finalize on next, list and parent links: afterwards the links describe the finalised tree, every parent link names the actual container, and links of other nodes are untouched |
| MenuHeap.Menu.Collect | scripts/config/menu.c:461-495 | the loop that finalises the following siblings and gives them the symbol as parent while they stay linked where they are |
| MenuHeap.Menu.Absorb | scripts/config/menu.c:461-501 | the collected siblings become the list of the symbol |
| MenuHeap.Menu.AdoptChildren | scripts/config/menu.c:575-579 | the children of a flattened node get the parent of that node; the last of them is found |
| MenuHeap.Menu.Hoist | scripts/config/menu.c:574-583 | a node without a prompt: its children are linked in after it |
| MenuHeap.Menu.Flatten | scripts/config/menu.c:505-584 | the loop over all children, which also meets the nodes it has just linked in |
| MenuHeap.Menu.FinalizeRoot | scripts/config/menu.c:305-612 | from the root: the preorder sequence is kept, every node finalised exactly once in that order, parent links are right, and no node below the root has children without a prompt |
| MenuHeap.Menu.Walk | scripts/config/confdata.c:896-915 | the walk of conf_write by list, next and parent links terminates and visits every node below the root exactly once, in preorder |
| Preprocess.FindCloseIs | scripts/config/preprocess.c:469-479 | the closing parenthesis found at any nesting depth |
| Preprocess.ReferenceEnds | scripts/config/preprocess.c:453-488 | a reference ends at the first closing parenthesis after a balanced text |
| Preprocess.SplitJoins | scripts/config/preprocess.c:384-399 | the pieces of a balanced clause are balanced and without commas of their own, and joining them with commas gives the clause back |
| Preprocess.SplitOfJoin | scripts/config/preprocess.c:384-399 | conversely, such pieces joined with commas are found again |
| Preprocess.BudgetShrinks | scripts/config/preprocess.c:259-267 | entering a variable uses up its budget of at most 1001 nested expansions, the first part of the measure by which expansion terminates |
| Preprocess.Expand | scripts/config/preprocess.c:495-537 | expansion always ends in a result, a reported error or the overrun of new_argv, and what remains is never longer than the input |
| Preprocess.PlainText | scripts/config/preprocess.c:495-537 | a text without dollar signs expands to itself |
| Preprocess.TokenEnds | scripts/config/preprocess.c:559-575 | a token ends at the end of the text or before a character that cannot be part of it |
| Preprocess.ExpandAppend | scripts/config/preprocess.c:495-537 | a text whose expansion succeeds and that does not end in a dollar sign expands to the same whatever follows it |
| Preprocess.GuardIsHarmless | scripts/config/preprocess.c:259-264 | the guard against recursion changes no result: what expands while variables are being expanded expands to the same while fewer are |
| Preprocess.PlainReference | scripts/config/preprocess.c:346-439 | a plain reference $(name) is replaced by what its name resolves to |
| Arguments.ArgumentsAreNumbered | scripts/config/preprocess.c:362-366 | a reference stands for an argument if and only if it is a decimal numeral that strtoul reads as the number of one, counted from 1 |
| Arguments.ArgumentReference | scripts/config/preprocess.c:362-366 | $(k), with k in decimal, is replaced by argument number k |
| Arguments.CallExpands | scripts/config/preprocess.c:346-439 | a call with up to 15 plain arguments is replaced by what its name means for exactly these arguments, in order |
| Arguments.NameMeans | scripts/config/preprocess.c:407-427 | a name means the first variable of that name, or else the built-in function, or else, without arguments, the environment variable, or nothing |
| Arguments.FunctionCall | scripts/config/preprocess.c:251-277 | a call of a variable whose value is $(k) is its argument number k |
| Arguments.TokenCharacters | scripts/config/preprocess.c:559-563 | a token is made of letters, digits and four more characters |
| Preprocess.SelfReferenceFails | scripts/config/preprocess.c:259-261 | a recursive variable whose value refers to itself without arguments always ends in the error |
| Preprocess.SixteenCommas | scripts/config/preprocess.c:384-399 | a clause with more than sixteen commas of its own is reported; one with exactly sixteen is not, and its last piece is written beyond the array |
| Preprocess.OverrunInput | scripts/config/preprocess.c:399 | an input of the second kind |
| Macros.SplitInPlace | scripts/config/preprocess.c:384-399 | overwriting the commas in the clause buffer leaves exactly the pieces of the split as C strings, their places in the sixteen slots of new_argv; more than seventeen pieces are reported, and the last write is within the array if and only if there are not seventeen |
| Macros.Preprocessor.constructor | scripts/config/preprocess.c:309-313 | no variable is being expanded at first |
| Macros.Preprocessor.ExpandString | scripts/config/preprocess.c:495-537 | __expand_string computes the specification and restores every exp_count on normal return |
| Macros.Preprocessor.ExpandDollar | scripts/config/preprocess.c:453-488 | the same for expand_dollar_with_args |
| Macros.Preprocessor.EvalClause | scripts/config/preprocess.c:346-439 | the same for eval_clause: arguments, then variables, built-in functions and the environment |
| Macros.Preprocessor.ExpandVariable | scripts/config/preprocess.c:251-277 | the same for variable_expand with its two guards |
| Macros.Preprocessor.VariableLookup | scripts/config/preprocess.c:239-249 | the first variable of that name |
| Words.BytesRoundTrip | scripts/mkhash.c:98-134 | the four bytes written for a word determine it, in either byte order |
| Words.LongRoundTrip | scripts/mkhash.c:110-117 | the same for the eight bytes of a 64-bit number |
| Words.RotRBit | scripts/mkhash.c:452 | a rotation to the right moves every bit as section 3.2 of FIPS 180-4 says |
| Words.RotLBit | scripts/mkhash.c:160-163 | a rotation to the left moves every bit as section 2 of RFC 1321 says |
| Words.PlusCarries | scripts/mkhash.c:160-163 | addition drops the carry out of 32 bits and nothing else |
| Words.WordRoundTrip | scripts/mkhash.c:98-108 | the word made up of four bytes has these bytes, in either byte order |
| Blocks.PaddingIsLeast | scripts/mkhash.c:572-599 | the padding holds the least number of zeros that completes a block with the length |
| Blocks.PaddingBytes | scripts/mkhash.c:565-599 | the padding is one byte 0x80, zeros, and the eight bytes of the length |
| Blocks.FoldAppend | scripts/mkhash.c:189-297 | compressing block by block does not depend on where a sequence of complete blocks is cut |
| Sha256.ChIsChoose | scripts/mkhash.c:450 | the rewritten Ch is the function of FIPS 180-4, section 4.1.2 |
| Sha256.MajIsMajority | scripts/mkhash.c:451 | the rewritten Maj is the function of FIPS 180-4, section 4.1.2 |
| Sha256.SigmaBits | scripts/mkhash.c:480-512 | the functions applied to the working variables, bit by bit with the rotations of section 4.1.2 of FIPS 180-4 |
| Sha256.ScheduleBits | scripts/mkhash.c:534-536 | the functions of the message schedule, bit by bit |
| Primes.PrimesInOrder | scripts/mkhash.c:461-479 | the table used for the constants holds the first 64 primes |
| Primes.RoundConstants | scripts/mkhash.c:461-479 | round constant t is made of the first 32 bits of the fractional part of the cube root of the t-th prime (section 4.2.2 of FIPS 180-4) |
| Primes.InitialHash | scripts/mkhash.c:601-618 | the initial state is made of the first 32 bits of the fractional parts of the square roots of the first 8 primes (section 5.3.3) |
| Primes.RootsAreUnique | scripts/mkhash.c:461-479 | there is only one such word for each prime |
| Sha256.ConcatAt | scripts/mkhash.c:665-671 | the digest holds the words of the state in order, high-order byte first |
| Sha256.MixRound | scripts/mkhash.c:480-516 | one round writes only two registers of the rotating register file and is one round of the standard |
| Sha256.MixBatch | scripts/mkhash.c:514-530 | sixteen rounds in place |
| Sha256.ScheduleBatch | scripts/mkhash.c:534-549 | the sixteen next words of the message schedule |
| Sha256.Transform | scripts/mkhash.c:458-563 | SHA256_Transform is the compression function of FIPS 180-4, section 6.2.2, for every state and block |
| Sha256.Context.constructor | scripts/mkhash.c:601-618 | SHA256_Init: the state of the empty message |
| Sha256.Context.Update | scripts/mkhash.c:620-658 | SHA256_Update: a context that holds a message holds the message with the data appended |
| Sha256.Context.Pad | scripts/mkhash.c:572-599 | SHA256_Pad: the state becomes the fold of the compression function over the padded message of FIPS 180-4, section 5.1.1 |
| Sha256.Context.Final | scripts/mkhash.c:664-675 | SHA256_Final: the digest of the message; the context is cleared |
| Sha256.HashFile | scripts/mkhash.c:715-728 | the digest of a message does not depend on how it is cut into chunks, and is the one of the standard |
| Md5.WrittenIsAuxiliary | scripts/mkhash.c:151-155 | the rewritten F, G and H are the functions of RFC 1321, section 3.4 |
| Md5.LastAuxiliary | scripts/mkhash.c:155 | the function of the last round is the complement of y, except where z is set and x is not |
| Md5.WordBytes | scripts/mkhash.c:165-187 | the words of a block are read low-order byte first |
| Md5.StartBytes | scripts/mkhash.c:299-308 | the bytes of the initial registers count up and down (section 3.3 of RFC 1321) |
| Sines.SineTable | scripts/mkhash.c:205-286 | entry t of the table is the integer part of 2^32 times the absolute value of the sine of t + 1 radians (section 3.4 of RFC 1321) |
| Md5.StepInPlace | scripts/mkhash.c:160-163 | the STEP macro is one step of section 3.4 of RFC 1321 with the registers in rotated places |
| Md5.CompressBlock | scripts/mkhash.c:205-286 | the unrolled 64 steps are the compression of section 3.4 of RFC 1321, with its constants, word indices and rotations |
| Md5.Context.Body | scripts/mkhash.c:189-297 | MD5_body folds the compression over all blocks of data |
| Md5.Context.constructor | scripts/mkhash.c:299-308 | MD5_begin: the state of the empty message |
| Md5.CountsMore | scripts/mkhash.c:316-319 | adding a length keeps the counters right, with the carry out of the 29 bits of lo |
| Md5.CountsBits | scripts/mkhash.c:366-374 | lo shifted by three and hi give the bit length modulo 2^64, low-order byte first |
| Md5.Context.Update | scripts/mkhash.c:310-343 | MD5_hash: a context that holds a message holds the message with the data appended |
| Md5.Context.Final | scripts/mkhash.c:345-396 | MD5_end: the digest of sections 3.1 to 3.5 of RFC 1321; the context is cleared |
| Md5.HashFile | scripts/mkhash.c:700-713 | the digest of a message does not depend on how it is cut into chunks, and is the one of the RFC |

## Left out

- Front ends, the generated scanner and the parser driver; of the parser only the precedence and the
  actions of the expression grammar are modelled.
- Files, processes, the environment and shell commands: texts, and the results of built-in functions
  and environment look-ups, are parameters.
- Messages, warnings, change counters and the flags that only the user interface reads.
- Ranges of int and hex symbols: their values are texts here, and `sym_validate_range` and
  `sym_string_within_range` are not modelled.
- Minimal.MinimalLosesNothing: symbols outside choices; for a choice and its members see
  `Groups.GroupRoundTrip`.
- Minimal.StringDefaultIsDefault: the same.
- Confdata.WriteDefconfigCorrect: the same.
- Confdata.DefconfigRoundTrip: the same; moreover symbols have names of their own, strings hold no
  newlines, and the texts of numbers are valid.
- Groups.GroupRoundTrip: one choice, as in `Choices.OneMemberSelected`, among symbols outside choices;
  its members are not marked SYMBOL_NO_WRITE, and it is optional or selected where it shows, as
  `menu_finalize` arranges it.
- Cycles.Checker.CheckAll: that every cycle is reported is proved for choices mentioned by their own
  members only, as a choice without a name must be. While its members are checked a choice is not
  marked, so for a choice that other symbols name nothing is claimed but that reported cycles exist.
- Cycles.Checker.CheckSymDeps: prompts come before defaults, where the source keeps one list of
  properties in the order of definition; ranges are not modelled.
- Cycles.SilentCheckRanks: configurations without choices.
- Evaluation.CalcValueCorrect: where modules are switched by a symbol, this symbol and those it
  depends on are not tristates, so that modules_val does not change in the course of an evaluation.
- Choices.OneMemberSelected: a bool choice whose members are bools without defaults that do not
  depend on each other.
- Dups.JoinPairSound: a tristate is compared only with n, m, y or constants that denote no value
  (`Dups.Plain`), here and in everything that rests on it, such as `Dups.EliminateDupsSound` and
  `Depends.PropagateSound`; `Dups.NumeralBreaksJoin` shows why.
- Depends.SubmenuShows: only bools and tristates stand alone in dependencies.
- Print.PrintParse: symbols other than n, m and y are printed as plain words; quoted constants, and
  E_LIST and E_RANGE expressions, are not modelled.
- ExprHeap.Exprs.EliminateEqual: the two pointers to pointers are values passed in and written back,
  which is the same as long as the expressions share no nodes. In `DupsHeap`, where both pointers
  lead into one expression, they are places in nodes.
- MenuHeap.Menu.Finalize: the theorems hold for any decision which siblings a symbol takes into its
  submenu, fixed during the run; `Submenus` puts in the decision of the program, on the dependencies
  that propagation makes of the menu as parsed. Dependencies are not on the nodes.
- MenuHeap.Menu.Collect: the same.
- Adjustments of choice values in menu_finalize, types taken over between a choice and its members,
  and the checks of properties.
- MenuHeap.Menu.Walk: links are maps from nodes to nodes instead of fields of node objects.
- Macros.Preprocessor.ExpandVariable: the variables are fixed during an expansion; `variable_add` is
  not modelled, as with `:=` on an existing variable it would be evaluated while the old value is
  gone.
- Sines.SineTable: the sine of a whole number is given by the addition theorem from sine and cosine of 1,
  and these by their power series.
- Hashes: digests are bytes, not hexadecimal text; lengths have 64 bits at most where the program
  stores them; of the two ways to read the words of an MD5 block only the little-endian one is
  modelled.
