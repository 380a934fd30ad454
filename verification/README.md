# Verified models of the GoodCommand C sources

Dafny 4.11 models of the C algorithms kept in GoodCommand, with proofs of what
they are for. `dafny verify dfyconfig.toml` checks everything.

**The calculator, written twice.** `224.c` compiles infix text to postfix text
(`mtob`) and runs that text on a stack of decimal strings (`cal_bstr`);
`double_stack_224.c` does both in one pass over two stacks.
`Expressions` defines what an expression means (usual precedence, left
associativity, C ints, truncating division), `Lexer` reads text as tokens in the
order of tests both programs use, `ShuntingYard` and `StackMachine` are the two
passes of `224.c` on tokens, `TwoStacks` is the one-pass machine. The classes in
`TextCalculator` and `TwoStackCalculator` are the programs themselves, on
characters, buffers and bounded stacks, and are proved against those machines.
Main results: the compiler is correct, the two programs run in lockstep and
return the value of the expression, all buffers and stacks are large enough, and
the global stack index is restored for the next call. A text `Denotes` a value
when it is blank (0) or lexes to the tokens of a layered tree whose evaluation
is defined; `TypedExpressionMeansItsValue` shows that this covers every spacing
and any leading zeros, and `AnyExpressionMeansItsValue` every expression, whatever
its grouping (`Relayer` finds the layered tree of its tokens). `Grammar` is the
reference for what that means: the usual grammar of sums, products and factors,
written in the symbols of the text and without trees, priorities or machines. A
text denotes a value if and only if the grammar gives it that value
(`Grammar.MeaningIsGrammar`).

**The linked lists of `list.h`.** Nodes are heap objects. A ring is the sequence
of its nodes, starting anywhere; the head is one of them. `Rings` and
`ListSurgery` prove every operation against an operation on that sequence, in
every aliasing case. `RingFamily` runs arbitrary scripts of calls over many lists and
proves that the family of disjoint rings, and of nodes on no ring, is kept and
evolves as its abstract meaning says; `RingLaws` says what that meaning is, call by
call, on the lists read from their heads. `HashList` and `HashFamily` do the same for hash lists, with a back
pointer modelled as the address of the slot that holds the node.

**In-place and scanning algorithms.** `KGroup` (reverse a list in groups of k),
`LongestPalindrome`, `LongestWindow` (longest substring without repeats) and
`ReverseWords`.

**The write-access counters of `fs.h`.** `WriteAccess` is the protocol over all
interleavings of any number of threads, on a 32-bit counter that wraps.

Places where the code does less, or other, than its comments or callers might
expect; each is stated exactly by the member named:

- `list_swap` between two rings exchanges its entries if and only if the second is
  not alone in its ring, which `list_empty` on it tells before the call
  (`ListSurgery.SwapTwoLists`). Otherwise, for an initialised node on no list, the
  first then follows the second. Within one ring it always exchanges.
- `list_cut_position` on an empty list returns without initialising the node that
  is to receive the entries (`ListSurgery.ListCutPosition`).
- `stack_push` of `224.c` tests `it<=stack_len`, so with `it==stack_len`, and for no
  other index from -1 up, it writes one cell past the allocated `len+1`
  (`TextCalculator.Calculator.GuardTooWeak`). A call entered with `it==-1` on any
  text that compiles and whose postfix program runs never gets there
  (`TextCalculator.Calculator.CompileAndRun`), so checking `it==-1` before a call is
  enough. A call leaves `it` at -1 for every well-formed expression, but not for a
  text that leaves several results: after five numbers without an operator, a
  well-formed call on a text of three characters that opens with `(` pushes it out
  of bounds (`TextCalculator.Calculator.StaleIndexOverflows`).
- `calculate("")` of `double_stack_224.c` frees two pointers it never set, since
  `stack_init` allocates for a positive size only. Its stacks can be freed if and
  only if the text is not empty (`TwoStackCalculator.Run`).
- `hlist_del` on a node made fake, whose `next` is not poison, writes only that node
  if and only if its `next` is no other node (`HashList.HlistDelFake`). Making a node fake after `hlist_del` does not
  make it deletable, since its `next` is poison; after `hlist_del_init` it does
  (`HashList.DeleteThenFake`).
- `longestPalindrome` writes past its 1001-byte result if and only if some
  palindromic substring has more than 1000 characters
  (`LongestPalindrome.ResultFits`), as 1001 equal characters do
  (`LongestPalindrome.LongRunOverflows`).
- `lengthOfLongestSubstring` indexes `map` within its bounds for every text if char
  is unsigned, and exactly for ASCII text if it is signed
  (`LongestWindow.InBoundsIffAscii`).
- The access counters exclude writers and deniers in all states of a run if and
  only if no call overflows the counter (`WriteAccess.InterleavingIsSafe`). Runs of
  less than 2^31 calls do not, and 2^31 gets in a row do
  (`WriteAccess.BoundIsTight`).

## Model

| member | source | states |
|---|---|---|
| DecimalText.ScanPrint | source/src/leetcode/224.c:231-266 | scanning what was printed gives every int back, negative ones included, and consumes exactly its text |
| DecimalText.PrintIntShort | source/src/leetcode/224.c:5-10 | an int prints in at most 11 characters, so it fits a stack entry |
| DecimalText.ReprintShorter | source/src/leetcode/224.c:172-181 | a literal printed back is not longer than it was typed |
| DecimalText.DigitsCount | source/src/leetcode/224.c:172-181 | the digit 0 is worth nothing and each next digit one more |
| DecimalText.LeadingDigit | source/src/leetcode/224.c:172-181 | a digit in front of k digits is worth its value times ten to the k |
| DecimalText.MinusPrints | source/src/leetcode/224.c:247-259 | a negative number prints as a minus sign and its opposite |
| DecimalText.IntRange | source/src/leetcode/224.c:229 | an int is a 32-bit two's complement number |
| Expressions.TruncDivTruncates | source/src/leetcode/224.c:239 | division leaves a remainder smaller than the divisor with the sign of the dividend |
| Expressions.DivUndoesMul | source/src/leetcode/224.c:238-239 | a product divided by a factor is the other factor |
| Expressions.OperatorLaws | source/src/leetcode/224.c:234-245 | adding and multiplying count up one by one from 0, subtracting undoes adding, dividing undoes multiplying; only overflow and a zero divisor are undefined |
| Expressions.Relayer | source/src/leetcode/224.c:93-201 | the tokens of every expression are those of a layered tree, however the expression groups them |
| Lexer.LexOperator | source/src/leetcode/224.c:114-120 | at an operator the first token is that operator and one character is consumed |
| Lexer.LexSpace | source/src/leetcode/224.c:166-170 | a space is skipped without effect on the tokens |
| Lexer.LexNumber | source/src/leetcode/224.c:172-181 | at a number the scan takes exactly its digits, the rest of the text lexes to the other tokens |
| Lexer.ScanNumber | source/src/leetcode/224.c:218-262 | the scanned value is the first token and the rest of the text lexes to the other tokens |
| Lexer.LexPostfixText | source/src/leetcode/224.c:172-195 | re-lexing the text of a postfix program gives exactly its tokens |
| Lexer.LexWritten | source/src/leetcode/224.c:112-181 | tokens typed with any spaces and leading zeros lex to themselves as long as no two numbers are neighbours |
| Lexer.NoAdjacentNumbers | source/src/leetcode/224.c:112-181 | an expression never puts two numbers side by side |
| Lexer.LexedCharacters | source/src/leetcode/224.c:70-80 | text that lexes consists of digits, spaces and the six symbols |
| StackMachine.DoOneCalApplies | source/src/leetcode/double_stack_224.c:104-121 | operands in stack order give the operator applied in reading order |
| StackMachine.NoOperatorGivesZero | source/src/leetcode/double_stack_224.c:113-117 | a parenthesis would compute 0 |
| StackMachine.PostfixComputesValue | source/src/leetcode/224.c:216-270 | running the postfix form of an expression on any stack pushes its value, and is undefined exactly when the value is |
| StackMachine.ResultLeft | source/src/leetcode/224.c:205-270 | a program that runs leaves a result, unless there is nothing to run |
| ShuntingYard.EmitsPending | source/src/leetcode/224.c:149-157 | an operator emits exactly the pending operators that bind at least as tightly, topmost first |
| ShuntingYard.ParenEmitsPending | source/src/leetcode/224.c:133-145 | a closing parenthesis emits everything above its opening one and removes that |
| ShuntingYard.ReadsExpression | source/src/leetcode/224.c:112-188 | reading an expression above any looser operator stack leaves that stack plus its pending operators, and emits the rest of its postfix form |
| ShuntingYard.CompilesToPostfix | source/src/leetcode/224.c:93-201 | every well-formed token sequence compiles to the postfix form of its tree |
| OperatorStack.StepKeepsOrder | source/src/leetcode/double_stack_224.c:156-187 | one token keeps priorities strictly increasing between open parentheses and counts the open parentheses |
| OperatorStack.OrderedIsShort | source/src/leetcode/double_stack_224.c:156-187 | an ordered stack with d open parentheses holds at most 3d plus the top priority entries |
| OperatorStack.OperatorStackInvariant | source/src/leetcode/double_stack_224.c:151-203 | after every prefix of a well-formed expression the run has not failed, the stack is ordered, holds at most 3d + 2 entries at depth d, and only operators have been applied |
| OperatorStack.PostfixHasNoParens | source/src/leetcode/double_stack_224.c:104-121 | no parenthesis ever reaches the arithmetic |
| OperatorStack.PostfixTextRelexes | source/src/leetcode/224.c:93-263 | for every text that compiles, well-formed or not, lexing the postfix text gives exactly the postfix program |
| TwoStacks.SimEmit | source/src/leetcode/double_stack_224.c:123-135 | a reduction finds both operands and computes what the postfix machine computes for the emitted operator |
| TwoStacks.SimStep | source/src/leetcode/double_stack_224.c:151-199 | one token keeps operator stacks equal and the number stack equal to the postfix machine's |
| TwoStacks.Lockstep | source/src/leetcode/double_stack_224.c:151-199 | after every prefix of an input whose postfix program runs, the two programs' stacks agree |
| TwoStacks.EvaluateAgrees | source/src/leetcode/double_stack_224.c:137-212 | both programs return the top of the stack the postfix program leaves |
| Meaning.MeaningIsComputed | source/src/leetcode/224.c:272-277 | a meaningful text compiles, its postfix text re-lexes, and running it leaves exactly its value, which the one-pass evaluator returns too |
| Meaning.MeaningIsUnique | source/src/leetcode/224.c:272-277 | precedence and associativity leave a text one value |
| Meaning.TreeMeaning | source/src/leetcode/224.c:272-277 | a text of the tokens of a layered tree means the value of the tree, and nothing when that is undefined |
| Meaning.TypedExpressionMeansItsValue | source/src/leetcode/224.c:283-324 | every way of typing a well-formed expression means its value |
| Meaning.AnyExpressionMeansItsValue | source/src/leetcode/224.c:283-324 | every way of typing any expression means the value that precedence and associativity give it |
| Grammar.MeaningIsGrammar | source/src/leetcode/224.c:82-277 | for every text and value: the text denotes the value if and only if the grammar of sums, products and factors gives it that value |
| Grammar.OneOperator | source/src/leetcode/224.c:234-245 | one operator between two operands computes their sum, difference, product or truncated quotient |
| Grammar.ProductFirst | source/src/leetcode/224.c:82-91 | x + y * z and x - y * z compute the product first |
| Grammar.LeftFirst | source/src/leetcode/224.c:149-157 | x - y - z subtracts from the left |
| Grammar.ParenthesesSayThePrecedence | source/src/leetcode/224.c:82-160 | with any two operators between any operands, parentheses around the second pair change nothing exactly when only the second operator is * or /, otherwise those around the first pair |
| TextCalculator.Calculator.StackInit | source/src/leetcode/224.c:16-21 | allocates len + 1 cells and leaves the index as it was |
| TextCalculator.Calculator.StackPush | source/src/leetcode/224.c:30-45 | below the limit the cell is written at the next index, with a stale larger index nothing is; required is only that a write the guard lets through is in bounds |
| TextCalculator.Calculator.GuardTooWeak | source/src/leetcode/224.c:30-45 | a push stays in bounds if and only if the index is not stack_len (and not below -1) |
| TextCalculator.Calculator.StackPop | source/src/leetcode/224.c:46-51 | returns the index of the top cell and lowers the index |
| TextCalculator.Calculator.EmitTop | source/src/leetcode/224.c:138-142 | the top operator and a space are appended to the output and popped |
| TextCalculator.Calculator.EmitGroup | source/src/leetcode/224.c:135-143 | the loop stops at the opening parenthesis with the configuration the token machine reaches |
| TextCalculator.Calculator.EmitOperators | source/src/leetcode/224.c:148-157 | the loop emits exactly the operators the token machine emits |
| TextCalculator.Calculator.ReadOp | source/src/leetcode/224.c:117-160 | the operator branches perform one step of the token machine and write at most two characters per operator |
| TextCalculator.Calculator.ReadNumber | source/src/leetcode/224.c:172-181 | the number branch performs one step of the token machine and writes at most twice what it read |
| TextCalculator.Calculator.Scan | source/src/leetcode/224.c:112-188 | the main loop reaches the configuration of the token machine, output and stack together at most twice the input |
| TextCalculator.Calculator.Mtob | source/src/leetcode/224.c:93-201 | the buffer holds the text of the compiled program, at most 2 * strlen(s) characters and a terminator, all accesses in bounds, the index back at -1 |
| TextCalculator.Calculator.PopNum | source/src/leetcode/224.c:226-232 | a number popped as text is the number that was pushed |
| TextCalculator.Calculator.ApplyOp | source/src/leetcode/224.c:224-248 | the operator branch performs one step of the postfix machine on the stack of texts |
| TextCalculator.Calculator.Execute | source/src/leetcode/224.c:216-263 | the loop leaves the stack of the postfix machine, as texts |
| TextCalculator.Calculator.CalBstr | source/src/leetcode/224.c:205-270 | returns the top of that stack; the index is restored exactly when it was the only entry |
| TextCalculator.Calculator.CompileAndRun | source/src/leetcode/224.c:272-277 | on any text that compiles and whose postfix program runs, well-formed or not: returns the top result and leaves the index at the number of results minus 2 |
| TextCalculator.Calculator.Calculate | source/src/leetcode/224.c:272-277 | returns the value of every meaningful text and restores the index |
| TextCalculator.Calculator.CalculateAll | source/src/leetcode/224.c:289-324 | any number of calculations in a row are all correct |
| TextCalculator.Calculator.UpToFirstPush | source/src/leetcode/224.c:108-132 | on a text whose first token is an opening parenthesis only spaces are read before it is pushed, with the index as it was found |
| TextCalculator.Calculator.StaleIndexOverflows | source/src/leetcode/224.c:12-132 | after n + 2 numbers without an operator, a call on any text of length n that opens with a parenthesis reads it at the index where pushing it is out of bounds |
| TextCalculator.Calculator.StaleIndexExample | source/src/leetcode/224.c:12-132 | so it does at the first character of (1), which means 1, after five numbers |
| TwoStackCalculator.Stack.constructor | source/src/leetcode/double_stack_224.c:13-25 | an empty stack of the given capacity; its data pointer is set if and only if the size is positive |
| TwoStackCalculator.Stack.Top | source/src/leetcode/double_stack_224.c:37-42 | the last entry, zero for an empty stack |
| TwoStackCalculator.Stack.Push | source/src/leetcode/double_stack_224.c:44-54 | the entry is added unless the stack is full, then it is dropped |
| TwoStackCalculator.Stack.Pop | source/src/leetcode/double_stack_224.c:56-66 | the last entry is removed and returned, zero for an empty stack |
| TwoStackCalculator.Stack.Free | source/src/leetcode/double_stack_224.c:79-82 | defined only for a pointer that was set |
| TwoStackCalculator.PopAndCal | source/src/leetcode/double_stack_224.c:123-135 | one reduction of the two-stack machine, no push dropped |
| TwoStackCalculator.CloseGroup | source/src/leetcode/double_stack_224.c:167-174 | the closing parenthesis reduces down to its opening one and removes it |
| TwoStackCalculator.ApplyTighter | source/src/leetcode/double_stack_224.c:177-182 | the operators that bind at least as tightly are applied |
| TwoStackCalculator.ReadOp | source/src/leetcode/double_stack_224.c:156-187 | the operator branches perform one step of the two-stack machine |
| TwoStackCalculator.Scan | source/src/leetcode/double_stack_224.c:151-199 | the main loop reaches the state of the two-stack machine within the capacity of the stacks |
| TwoStackCalculator.ApplyAll | source/src/leetcode/double_stack_224.c:200-203 | the final loop applies every operator left |
| TwoStackCalculator.Run | source/src/leetcode/double_stack_224.c:137-206 | returns the result of the two-stack machine on every text on which that is defined; its stacks can be freed if and only if the text is not empty |
| TwoStackCalculator.Calculate | source/src/leetcode/double_stack_224.c:137-212 | returns the value of every meaningful text but the empty one, the same as the calculator of 224.c, and frees its stacks |
| Rings.Rotate | source/src/linux/list.h:26-37 | a ring may be described from any of its nodes |
| Rings.InitListHead | source/src/linux/list.h:33-37 | the node is a ring by itself |
| Rings.AddBetween | source/src/linux/list.h:63-74 | a node linked between two neighbours joins their ring there |
| Rings.ListAdd | source/src/linux/list.h:84-87 | the new node follows the head, at any position of any ring |
| Rings.ListAddTail | source/src/linux/list.h:98-101 | the new node precedes the head, at any position of any ring |
| Rings.DelEntry | source/src/linux/list.h:110-136 | the others stay a ring, the entry keeps its links |
| Rings.ListDel | source/src/linux/list.h:144-149 | the others stay a ring, the entry is poisoned |
| Rings.ListDelInit | source/src/linux/list.h:202-206 | the others stay a ring, the entry becomes one by itself |
| Rings.ListReplace | source/src/linux/list.h:158-165 | the new node takes the entry's place, also when the entry is alone |
| Rings.ListReplaceInit | source/src/linux/list.h:174-179 | the new node takes the entry's place, the entry becomes a ring by itself |
| Rings.ListMove | source/src/linux/list.h:213-218 | the entry leaves its ring and follows the head, within one ring or between two |
| Rings.ListMoveTail | source/src/linux/list.h:224-229 | the entry leaves its ring and precedes the head, within one ring or between two |
| Rings.EmptyAndSingular | source/src/linux/list.h:280-343 | the emptiness and one-entry tests tell the number of entries; head points to first and last |
| Rings.SameLinks | source/src/linux/list.h:26-37 | a ring determines every link of its nodes |
| Rings.ListRotateLeft | source/src/linux/list.h:308-316 | the first entry becomes the last |
| Rings.RotateFully | source/src/linux/list.h:308-316 | rotating as often as there are entries restores every link |
| Rings.ListRotateToFront | source/src/linux/list.h:325-334 | A, x, B becomes x, B, A |
| Rings.ListBulkMoveTail | source/src/linux/list.h:240-252 | A, S, B becomes A, B, S for all A and B, empty ones included |
| ListSurgery.SwapOut | source/src/linux/list.h:186-194 | the second entry leaves its ring and takes the place of the first, its old predecessor is remembered |
| ListSurgery.ListSwap | source/src/linux/list.h:186-196 | the whole swap, on rings in any position to each other |
| ListSurgery.SwapInOneList | source/src/linux/list.h:186-196 | two entries of one list trade places, neighbours in either order or apart |
| ListSurgery.SwapAcrossLists | source/src/linux/list.h:186-196 | entries of two lists trade places |
| ListSurgery.SwapWithLoneNode | source/src/linux/list.h:186-196 | with a second entry on no list the exchange is incomplete: the first follows it |
| ListSurgery.SwapTwoLists | source/src/linux/list.h:186-196 | between two rings the entries are exchanged if and only if the second is not alone, which list_empty on it tells before the call |
| ListSurgery.SwapTwiceInOneList | source/src/linux/list.h:186-196 | swapping twice restores every link of the list |
| ListSurgery.SwapTwiceAcrossLists | source/src/linux/list.h:186-196 | swapping twice restores every link of both lists |
| ListSurgery.CutPosition | source/src/linux/list.h:345-355 | a list splits behind the entry, nodes and order kept |
| ListSurgery.ListCutPosition | source/src/linux/list.h:371-383 | as documented for a non-empty list and an entry on it, the head included; nothing is written on an empty list, or for an entry that is not on a list of one |
| ListSurgery.ListCutBefore | source/src/linux/list.h:399-413 | a list splits before the entry, the head as entry giving everything away |
| ListSurgery.SpliceBetween | source/src/linux/list.h:415-427 | the entries of a list join another ring between two neighbours |
| ListSurgery.ListSplice | source/src/linux/list.h:434-439 | the entries of a list follow the head, at any position |
| ListSurgery.ListSpliceTail | source/src/linux/list.h:446-451 | the entries of a list precede the head, at any position |
| ListSurgery.ListSpliceInit | source/src/linux/list.h:460-467 | as list_splice, and the emptied list is a ring by itself |
| ListSurgery.ListSpliceTailInit | source/src/linux/list.h:477-484 | as list_splice_tail, and the emptied list is a ring by itself |
| ListSurgery.CutThenSplice | source/src/linux/list.h:371-467 | cutting behind any entry and splicing back restores every link |
| ListSurgery.CutBeforeThenSplice | source/src/linux/list.h:399-467 | cutting before any entry, or the head, and splicing back restores every link |
| ListSurgery.VisitEntry | source/src/linux/list.h:202-206 | one round keeps the list at what was kept plus what is to come, and deleted entries alone |
| ListSurgery.NextVisited | source/src/linux/list.h:579-581 | the saved successor is the next entry, whatever was deleted before |
| ListSurgery.ForEachSafe | source/src/linux/list.h:579-581 | a safe loop that deletes chosen entries visits every entry once in order and leaves the others in order |
| RingFamily.EffectConserves | source/src/linux/list.h:84-467 | a call moves nodes between the two rings it names; none is lost, invented or in both |
| RingFamily.Perform | source/src/linux/list.h:84-484 | each call produces the rings its abstract meaning describes and writes nowhere else; a node taken off with list_del is poisoned |
| RingFamily.Execute | source/src/linux/list.h:84-484 | each legal call keeps a family of disjoint rings and nodes off them, has its abstract meaning, and leaves all other links alone |
| RingFamily.ExecuteAll | source/src/linux/list.h:84-484 | so does every sequence of legal calls over any number of lists: adding, deleting, moving, replacing, swapping, splicing, rotating, bulk moving and cutting |
| RingFamily.RunInSteps | source/src/linux/list.h:84-484 | a run is its calls one after the other |
| RingLaws.EntriesAreLinked | source/src/linux/list.h:26-37 | the entries of a list are what following the links from its head finds |
| RingLaws.OtherListsStay | source/src/linux/list.h:84-484 | a list of which no node is named by a call stays as it is |
| RingLaws.LegalOnRings | source/src/linux/list.h:84-484 | the nodes named must be on rings, but for one to add, to put in, or to receive a cut part |
| RingLaws.OffNodes | source/src/linux/list.h:84-484 | off the rings are the nodes that were and have not been linked, and one just deleted |
| RingLaws.AfterAdd | source/src/linux/list.h:84-87 | the new entry is the first |
| RingLaws.AfterAddTail | source/src/linux/list.h:98-101 | the new entry is the last |
| RingLaws.AfterDel | source/src/linux/list.h:144-206 | for list_del and list_del_init, seen from any other node: a, x, b becomes a, b |
| RingLaws.AfterReplaceInit | source/src/linux/list.h:174-179 | a, o, b becomes a, n, b, and the new node has the surroundings of the old one |
| RingLaws.AfterMoveWithin | source/src/linux/list.h:213-218 | within a list a, x, b becomes x, a, b |
| RingLaws.AfterMoveTailWithin | source/src/linux/list.h:224-229 | within a list a, x, b becomes a, b, x |
| RingLaws.AfterMoveTo | source/src/linux/list.h:213-229 | in another list the entry becomes the first or the last |
| RingLaws.AfterMoveFrom | source/src/linux/list.h:213-229 | the list it leaves keeps the others in order |
| RingLaws.AfterSwapWithin | source/src/linux/list.h:186-196 | within a ring the two entries trade places |
| RingLaws.AfterSwapAcross | source/src/linux/list.h:186-196 | between rings each entry has the surroundings of the other |
| RingLaws.AfterSpliceInit | source/src/linux/list.h:460-467 | the entries of the list come first, and it is empty |
| RingLaws.AfterSpliceTailInit | source/src/linux/list.h:477-484 | the entries of the list come last, and it is empty |
| RingLaws.AfterRotateLeft | source/src/linux/list.h:308-316 | x, l becomes l, x |
| RingLaws.AfterRotateToFront | source/src/linux/list.h:325-334 | a, x, b becomes x, b, a |
| RingLaws.AfterBulkMoveTail | source/src/linux/list.h:240-252 | a, s, b becomes a, b, s |
| RingLaws.AfterCutPosition | source/src/linux/list.h:371-383 | x, y is cut behind the last entry of x, or behind the head |
| RingLaws.AfterCutBefore | source/src/linux/list.h:399-413 | x, y is cut before the first entry of y, or before the head |
| HashList.Store | source/src/linux/list.h:811 | writing through a slot address changes that slot only |
| HashList.Unlink | source/src/linux/list.h:806-814 | the slot that held the node holds its successor, which names that slot |
| HashList.HlistDel | source/src/linux/list.h:823-828 | the node leaves its list without the head being known, is poisoned, and still counts as hashed |
| HashList.HlistDelInit | source/src/linux/list.h:836-842 | a node on a list leaves it, an unhashed one stays as it is |
| HashList.HlistAddHead | source/src/linux/list.h:852-860 | the node becomes the first of the list |
| HashList.HlistAddBefore | source/src/linux/list.h:867-874 | the node precedes the other, given only the two nodes |
| HashList.HlistAddBehind | source/src/linux/list.h:881-890 | the node follows the other, given only the two nodes |
| HashList.HlistMoveList | source/src/linux/list.h:936-943 | the list belongs to the new head, the old one is empty |
| HashList.HlistAddFake | source/src/linux/list.h:900-903 | the node names its own next slot |
| HashList.HlistDelFake | source/src/linux/list.h:892-912 | deleting a fake node writes only the node when its next is null, and redirects that successor otherwise |
| HashList.HlistDelInitOffList | source/src/linux/list.h:836-842 | on no list: an unhashed node stays as it is, a fake one is unhashed |
| HashList.DeleteThenFake | source/src/linux/list.h:823-903 | made fake after a deletion, a node can be deleted again if and only if it was deleted with hlist_del_init |
| HashList.SingularNode | source/src/linux/list.h:922-926 | the node-only test decides whether the node is alone on the list |
| HashList.Links | source/src/linux/list.h:755-769 | a list determines every slot and back pointer |
| HashList.AddThenDeleteRestores | source/src/linux/list.h:836-874 | adding and deleting a node restores every link |
| HashFamily.CallConserves | source/src/linux/list.h:823-890 | a call moves nodes between one list and the nodes off the lists; none is lost, invented or in two places |
| HashFamily.Perform | source/src/linux/list.h:823-890 | each call produces the list its abstract meaning describes and writes nowhere else |
| HashFamily.Execute | source/src/linux/list.h:823-943 | each legal call keeps a family of disjoint lists, has its abstract meaning, and writes only what it names |
| HashFamily.ExecuteAll | source/src/linux/list.h:823-943 | so does every sequence of legal calls over any number of heads |
| HashFamily.RunInSteps | source/src/linux/list.h:823-943 | a run is its calls one after the other |
| HashFamily.ListsAreLinked | source/src/linux/list.h:755-769 | the lists of a valid family are what following the links finds; unhashed and poisoned nodes are on none |
| HashFamily.AfterAddHead | source/src/linux/list.h:852-860 | the node comes first in its list, all other lists are as before |
| HashFamily.AfterAddBefore | source/src/linux/list.h:867-874 | a, next, b becomes a, n, next, b, all other lists are as before |
| HashFamily.AfterAddBehind | source/src/linux/list.h:881-890 | a, prev, b becomes a, prev, n, b, all other lists are as before |
| HashFamily.AfterDel | source/src/linux/list.h:823-842 | a, n, b becomes a, b, the node is poisoned or unhashed, all other lists are as before |
| HashFamily.AfterDelInitLoose | source/src/linux/list.h:836-842 | nothing happens to an unhashed node |
| HashFamily.AfterMoveList | source/src/linux/list.h:936-943 | the new head has the list, the old one none, all other lists are as before |
| KGroup.Insert | source/src/leetcode/25-reverse-nodes-in-k-group.c:10-14 | the node is linked in behind the other |
| KGroup.RemoveNode | source/src/leetcode/25-reverse-nodes-in-k-group.c:16-23 | the node is unlinked if it is the successor, otherwise nothing changes |
| KGroup.GetSize | source/src/leetcode/25-reverse-nodes-in-k-group.c:25-35 | the number of nodes |
| KGroup.GetNodeByIndex | source/src/leetcode/25-reverse-nodes-in-k-group.c:53-60 | the node at that index |
| KGroup.MoveToFront | source/src/leetcode/25-reverse-nodes-in-k-group.c:42-50 | one step moves the next node right behind the head, the chain staying whole |
| KGroup.DoRevert | source/src/leetcode/25-reverse-nodes-in-k-group.c:37-51 | the nodes strictly between head and tail are reversed in place |
| KGroup.ReverseKGroup | source/src/leetcode/25-reverse-nodes-in-k-group.c:61-84 | the same nodes, acyclic and null-terminated, every full group of k reversed, the remainder kept, no value written |
| KGroup.GroupsTwice | source/src/leetcode/25-reverse-nodes-in-k-group.c:61-84 | applying it twice gives the original order |
| KGroup.GroupsPermutes | source/src/leetcode/25-reverse-nodes-in-k-group.c:61-84 | no element is lost or invented |
| KGroup.GroupRunsBackwards | source/src/leetcode/25-reverse-nodes-in-k-group.c:37-84 | position j of full group i holds the element at position k - 1 - j of that group |
| KGroup.RemainderKept | source/src/leetcode/25-reverse-nodes-in-k-group.c:73-82 | behind the last full group every element keeps its position |
| LongestPalindrome.PalindromeHasCentre | source/src/leetcode/5-longest-palindromic-substring.c:13-54 | every palindromic substring is found at a centre with the step that gives its length |
| LongestPalindrome.ScanEven | source/src/leetcode/5-longest-palindromic-substring.c:15-33 | the best even step over all centres so far, last reached there |
| LongestPalindrome.ScanOdd | source/src/leetcode/5-longest-palindromic-substring.c:34-51 | the best odd step over all centres so far, last reached there |
| LongestPalindrome.BestOfBoth | source/src/leetcode/5-longest-palindromic-substring.c:60-69 | comparing the steps compares the lengths 2 * odd_step and 2 * even_step - 1 |
| LongestPalindrome.FindLongest | source/src/leetcode/5-longest-palindromic-substring.c:13-69 | for every text: a palindromic substring, none longer, the rightmost of its length |
| LongestPalindrome.ResultFits | source/src/leetcode/5-longest-palindromic-substring.c:56-69 | the copy stays inside the buffer if and only if no palindromic substring has more than 1000 characters |
| LongestPalindrome.LongRunOverflows | source/src/leetcode/5-longest-palindromic-substring.c:56-69 | 1001 or more equal characters overrun the buffer |
| LongestPalindrome.LongestPalindrome | source/src/leetcode/5-longest-palindromic-substring.c:5-72 | the 1001-byte buffer holds the rightmost of the longest palindromic substrings, when those have at most 1000 characters |
| LongestWindow.Extend | source/src/leetcode/3-longest-substring-without-repeating-characters.c:14-34 | the window stays the longest repeat-free one when extended by a character |
| LongestWindow.MarksNext | source/src/leetcode/3-longest-substring-without-repeating-characters.c:16-27 | the marks say which characters occurred anywhere before, in the window or not |
| LongestWindow.InBoundsIffAscii | source/src/leetcode/3-longest-substring-without-repeating-characters.c:8-16 | the accesses to map stay in bounds if and only if char is unsigned or the text is ASCII |
| LongestWindow.LengthOfLongestSubstring | source/src/leetcode/3-longest-substring-without-repeating-characters.c:3-38 | the length of a repeat-free substring than which none is longer, for every text whose accesses to map are in bounds |
| ReverseWords.WordsJoin | source/src/leetcode/151-reverse-words-in-a-string.c:13-41 | splitting undoes joining |
| ReverseWords.WordsReversed | source/src/leetcode/151-reverse-words-in-a-string.c:13-41 | the output consists of the input's words in reverse order |
| ReverseWords.ReversedTwice | source/src/leetcode/151-reverse-words-in-a-string.c:13-41 | applying it twice only normalises spacing |
| ReverseWords.SkipSpaces | source/src/leetcode/151-reverse-words-in-a-string.c:24-25 | skipped spaces do not change the words read |
| ReverseWords.SkipWord | source/src/leetcode/151-reverse-words-in-a-string.c:26-30 | stops just before the first character of the word |
| ReverseWords.AppendWord | source/src/leetcode/151-reverse-words-in-a-string.c:33-36 | the word is appended after a space unless it is the first, within the buffer |
| ReverseWords.ReadWordAndSpace | source/src/leetcode/151-reverse-words-in-a-string.c:26-36 | reading one more word from the end of the line adds it, after a space, to the end of the output |
| ReverseWords.Round | source/src/leetcode/151-reverse-words-in-a-string.c:22-38 | one round keeps the buffer equal to what the part read so far becomes, with room for a space and the rest |
| ReverseWords.ReverseWords | source/src/leetcode/151-reverse-words-in-a-string.c:13-41 | the buffer of len + 1 holds the words in reverse order with single spaces, in at most len characters |
| WriteAccess.StepKeepsInvariant | source/linux_root/include/linux/fs.h:2936-2953 | one call keeps counter = writers - deniers and their exclusion exactly when it does not overflow |
| WriteAccess.CounterTellsHolders | source/linux_root/include/linux/fs.h:2920-2957 | get succeeds iff nobody denies, deny iff nobody writes, the test is true iff somebody writes |
| WriteAccess.WrapsAround | source/linux_root/include/linux/fs.h:2936-2953 | one step past an end of the range comes back at the other, 2^32 away |
| WriteAccess.GetAcquires | source/linux_root/include/linux/fs.h:2936-2939 | a successful get gives its thread one more hold, and all denials fail |
| WriteAccess.DenyExcludes | source/linux_root/include/linux/fs.h:2940-2944 | a successful deny gives its thread one more denial, and all gets fail |
| WriteAccess.FailureChangesNothing | source/linux_root/include/linux/fs.h:2936-2944 | a call that fails changes nothing |
| WriteAccess.PutReleases | source/linux_root/include/linux/fs.h:2945-2948 | a put gives up one hold; after the last one the test is false and a deny succeeds |
| WriteAccess.AllowReleases | source/linux_root/include/linux/fs.h:2949-2953 | an allow gives up one denial; after the last one a get succeeds |
| WriteAccess.PutUndoesGet | source/linux_root/include/linux/fs.h:2936-2948 | a put after a successful get restores the state |
| WriteAccess.AllowUndoesDeny | source/linux_root/include/linux/fs.h:2940-2953 | an allow after a successful deny restores the state |
| WriteAccess.HoldersAreAccounted | source/linux_root/include/linux/fs.h:2920-2957 | in every interleaving a thread holds what it has acquired and not released, whatever the others do |
| WriteAccess.InterleavingIsSafe | source/linux_root/include/linux/fs.h:2920-2957 | all states of every interleaving of any number of threads are safe iff no call overflows |
| WriteAccess.OpenForWriteIsRight | source/linux_root/include/linux/fs.h:2954-2957 | after any run of less than 2^31 calls the test is true iff some thread holds write access |
| WriteAccess.OverflowBreaksExclusion | source/linux_root/include/linux/fs.h:2936-2944 | with INT_MAX writers one more get lets a deny succeed |
| WriteAccess.GetsReach | source/linux_root/include/linux/fs.h:2936-2939 | n gets in a row all succeed while the counter has room, so every count is reached |
| WriteAccess.BoundIsTight | source/linux_root/include/linux/fs.h:2936-2957 | 2^31 gets from the initial state are a run after which the test is wrong and a deny succeeds |
| WriteAccess.PerformAll | source/linux_root/include/linux/fs.h:2920-2957 | any interleaving of calls on one counter is a run of the protocol, and keeps the invariant if no call overflows |
| WriteAccess.GetWriteAccess | source/linux_root/include/linux/fs.h:2936-2939 | one get step of the protocol, -ETXTBSY exactly when it fails |
| WriteAccess.DenyWriteAccess | source/linux_root/include/linux/fs.h:2940-2944 | one deny step of the protocol, -ETXTBSY exactly when it fails |
| WriteAccess.PutWriteAccess | source/linux_root/include/linux/fs.h:2945-2948 | one put step of the protocol |
| WriteAccess.AllowWriteAccess | source/linux_root/include/linux/fs.h:2949-2953 | one allow step of the protocol, nothing for a null file |
| WriteAccess.InodeIsOpenForWrite | source/linux_root/include/linux/fs.h:2954-2957 | true exactly when some thread holds write access |
| WriteAccess.MappingMapWritable | source/linux_root/include/linux/fs.h:566-570 | one get step of the protocol, -EPERM exactly when it fails |
| WriteAccess.MappingDenyWritable | source/linux_root/include/linux/fs.h:577-581 | one deny step of the protocol, -EBUSY exactly when it fails |
| WriteAccess.MappingUnmapWritable | source/linux_root/include/linux/fs.h:572-575 | one put step of the protocol |
| WriteAccess.MappingAllowWritable | source/linux_root/include/linux/fs.h:583-586 | one allow step of the protocol |
| WriteAccess.MappingWritablyMapped | source/linux_root/include/linux/fs.h:561-564 | true exactly when some thread holds a writable mapping |

## Left out

- Malformed calculator input (letters, unbalanced parentheses, unary minus, tabs): the programs define no result for it, so the token machines answer None there and the methods require otherwise; literals too big for an int, overflow and division by zero are likewise excluded.
- Printing, `perror`, allocation failure, `free` and leaks, and the `main` drivers, except that `CalculateAll` covers their repeated calls.
- The use of the text as an `snprintf` format in `longestPalindrome`: the model copies the substring.
- `READ_ONCE` and `WRITE_ONCE` ordering, RCU and lockless variants, `CONFIG_DEBUG_LIST` and `container_of`: the lists are sequential, entries are the nodes themselves, and the poison of `list_del` is null, which no ring contains.
- Aliasing `list.h` does not support: swapping an entry with itself, rotating a head to its own front, moving a hash list onto its own head. In a family, moving onto a head whose list is not empty, which would lose that list.
- Scripts of calls over families of rings leave out `list_replace`, `list_splice` and `list_splice_tail`, which leave stale links behind and are proved alone.
- `list_is_first`, `list_is_last`, `list_empty_careful`, `__list_del_clearprev` and the other iteration macros, which would only add easy members.
- The counters' atomic primitives, which `fs.h` only calls: each is one indivisible step with 32-bit wrap-around.
- `kSmallestPairs.c`, `451-sort-frequency.c`, `qsort.c`, `median-of-two-sorted-arrays.c`, `sumk.c`, and the older copies of the list code.
- The documentation, scrapers, device, timing and kernel-module samples: I/O, foreign calls or inline assembly.
