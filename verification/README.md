# Verification model of YULARK

YULARK is a FORTH engine written in x86-64 assembly (`fvm_asm.nasm`), with a library and the front end of a small
language in FORTH (`fvm_library.f`, `fvm_yulark.f`) and a text reader in C++. This Dafny project models the parts of
it that carry hard properties and proves those properties for every input and every run. `dafny verify dfyconfig.toml`
checks all of it.

## The threaded-code engine and its compiler

- `Words`, `Machine`: 64-bit cells with wrap-around, and the inner interpreter NEXT / DOCOL / EXIT / LIT / JUMP /
  ?JUMP with the checked primitives, CREATE, DOES>, ALLOT and the dictionary words, as a step function on cells and
  stacks.
- `PrimitiveLaws`, `MemoryLaws`, `ControlLaws`: what the primitives, the words on memory and the control words mean, as
  laws about their effects - orders, quotients with remainders, bits, a cell laid and fetched, a flag taken or not, loops
  that count - which leave each of these words one meaning only.
- `ControlFlow`: structured FORTH programs, which may read and write memory and lay and reserve cells, the code a layout
  that knows all sizes gives them, and their big-step meaning with fuel. `Simulation` proves that the emitted cells do
  what the program means: they leave their code exactly if the meaning ends, in the same way and with the same memory,
  never touching the caller's return stack. A program that changes a cell of code has strayed; nothing is said of it.
- `OnePass`: IF, UNLESS, ELSE, THEN, BEGIN, AGAIN, UNTIL, WHILE, REPEAT and embedded strings as the compiler handles
  them, with unresolved operands on the return stack; it produces, cell for cell, the code of the two-pass layout.
- `FlatVm`: the same machine and the same compiling words as a class over one block of memory with registers, as it is
  in the engine; each method is proved against the functions of `Machine` and `OnePass`.
- `Widening`: what more fuel, more return cells and more words in memory do to a meaning. `Interpreter`: executing a
  text word by word, against running a word it was compiled into. `ColonDefinitions`: what `: T ... ;` adds to memory,
  and the text before it against T after it.
- `DefiningWords`: CREATE and DOES> as threaded code, and the words made by CREATE. `Definers`: words that make words,
  alone or by way of other such words, with what they build and with DOES>. `Definitions`: sessions of any number of
  them in one memory. `SessionSteps`: what may happen between two of them - programs that run, stores into fields,
  headers, colon definitions. `LibraryWords`: VARIABLE, CONSTANT, ARRAY and VAL as instances.
- `StringLiteral` (with `ByteCells`, `Bits`, `Bytes`): S" down to bytes, and that its cells are code of the layout above.

## Numbers as text

- `Positional`: the value of digit strings, dots and exponents. `FixupExp` re-lays out a number, `TrimRound` trims
  zeros and rounds nines.
- `Numeral`: the grammar of number texts. `NumberReader` is ?MATCHNUM with its helpers on the parameter stack
  (`CellStack`, whose operations are those of `Machine.PrimEffect`); `NumberWriter` is U>DOT and `.`. `NumberLaws` has
  the round trip through both of them, and the characters that numbers are made of.

## Input, dictionary, buffers

- `InputWords`, `NestedInput`: the library, the file, INPGETCH, putback, refills, ?WORD and EVAL against the list of
  words still to come.
- `Dictionary`: headers in raw memory against a list of entries, newest first.
- `AstDelete`: YU-ASTN-DELETE on a heap of live blocks. `Trough`: the token trough and the ring buffer.
- `Growth`, `LineReader`: autoScaleAppend and TextInfile::readLine.

## What came out differently than the sources suggest

Each of these is what the code does, proved as such.

- FIXUPEXP keeps the number exactly if the exponent is not negative, or the digits fill the maximum, or the negative
  exponent is within both its limit and the 256 steps of its 8-bit counter (`FixupExp.KeepsValue`); otherwise the
  exponent is lost: 1e-3 with one place allowed becomes 0.1 (`FixupExp.LosesExponent`, `FixupExp.WrapsCounter`).
- NINERUN adds one unit in the last place exactly if it does not run through a digit in front of the dot and does not
  have to count up a '9' in a base above ten (`TrimRound.NineRunAddsOneUnit`): 19.9 becomes 2, and in base sixteen
  0.9F becomes "0.:". In the engine there is one digit in front of the dot, so only the second case can occur there
  and a number that is all nines, which becomes empty.
- ZERORUN on a whole number divides it by powers of the base (`TrimRound.ZeroRunKeepsValue`): 100 becomes 1
  (`TrimRound.ZeroRunTrimsWhole`).
- The cells of a number text have lost its sign exactly if its whole part is worth a multiple of 2^63
  (`Numeral.SignIsLost`): -0.5 and 0.5 are stored alike (`Numeral.HalfLosesSign`), and so are whole parts of 2^63
  (`Numeral.LargeLosesSign`).
- ?WORD does not drop what is beyond 31 characters of a word: the rest comes back as the next word
  (`InputWords.WordsOf`, `NestedInput.Input.ReadWord`).
- No blank stands between the library and the file. Their words come one after the other exactly if the file is empty
  or begins with a space, or the library ends in a space or in whole pieces of 31 characters
  (`InputWords.WordsAtSeam`, `NestedInput.Input.constructor`); a library that ends in A and a file that begins with B
  give the word AB (`InputWords.RunTogether`).
- A putback character restored by the end of an evaluation is delivered after the character that follows in its
  context. The next character keeps the order of the input exactly if no putback is restored, or a single one that is
  the same as the character behind it or has none behind it (`NestedInput.Keeps`, `NestedInput.Input.GetChar`); the
  blank that ?WORD puts back between B and A comes after A (`NestedInput.RestoredTooLate`). The words come out right all the same,
  because of the blank that EVAL inserts (`NestedInput.Input.ReadWord`).
- ALLOT tests the sign of its number before and after it has multiplied it by the cell size, and so takes it modulo
  2^61: HERE moves by as many cells as asked for exactly if these are fewer than 2^60 and there is room
  (`Machine.AllotMoves`), 2^61 + 1 cells asked for are one reserved (`Machine.AllotWraps`), and so it is with ARRAY
  (`LibraryWords.ArrayMakes`).
- `:` sets the hidden flag in the free byte behind the code field, not in the header, so the new word is visible under
  its name at once (`Dictionary.Dict.Colon`).
- YU-ASTN-DELETE leaves a null pointer on the stack instead of consuming it (`AstDelete.Heap.Delete`).
- ?YU-TROUGH-EMPTY looks at the first byte and not at the fill count. The text keeps its order exactly if no line feed
  is dropped in front of a trough that begins with NUL but is not empty (`Trough.Trough.IsEmpty`); on a terminal the
  input NUL, A, line feed, B loses it (`Trough.LineFeedOvertakes`).

## Model

| member | source | states |
|---|---|---|
| Simulation.CompilerCorrect | fvm_asm.nasm:3477-3679 | running the emitted cells leaves their code if and only if the structured evaluation ends, and then at the end of the code with the same parameter stack, the same memory and the return stack of the start, or with the same error; of programs that change a cell of code, only the first half is said |
| Simulation.Simulate | fvm_asm.nasm:64-76 | from any state at the start of the code, for any fuel: unless the evaluation changes a cell of code, the run stays inside the code or in calls from it until it agrees with the evaluation, in stack and memory, and takes at least as many steps as there was fuel if that has not ended |
| Simulation.FuelIsOnlyFuel | fvm_asm.nasm:64-76 | two evaluations that end with different fuel give the same result |
| Simulation.LeavesOnce | fvm_asm.nasm:64-76 | a run leaves its code in one way only |
| Simulation.SimulateCall | fvm_asm.nasm:413-470 | a colon call: DOCOL, the body one return cell deeper, EXIT back behind the call; overflow of the return stack instead if it is full |
| Simulation.TestRun | fvm_asm.nasm:3424-3521 | ?FALSE or ?TRUE and ?JUMP take the flag and go on or leave for the target, with the errors of either stack |
| ControlLaws.IfMeans | fvm_asm.nasm:3477-3520 | behind a flag that is not zero IF runs its part, behind zero it does nothing; UNLESS the other way round |
| ControlLaws.IfElseMeans | fvm_asm.nasm:3424-3521 | with ELSE, the first or the second part accordingly |
| ControlLaws.CountsDown | fvm_asm.nasm:3644-3679 | `BEGIN DUP WHILE 1- REPEAT` leaves zero from any number |
| ControlLaws.CountsDownTo | fvm_asm.nasm:3578-3642 | `BEGIN 1- DUP =0 UNTIL` leaves zero from any number but zero |
| ControlLaws.AgainNeverDone | fvm_asm.nasm:3578-3642 | a loop with AGAIN never ends without an error |
| Simulation.CondJumpRun | fvm_asm.nasm:1665-1674 | ?JUMP takes the flag, and skips or follows its operand |
| Simulation.LitRun | fvm_asm.nasm:473-479 | LIT pushes its operand and skips it, or stops on overflow |
| OnePass.OnePassIsLayout | fvm_asm.nasm:3477-3679 | on every properly nested text the one-pass compiler appends cell for cell the code of the layout that knows all sizes, restores the return stack and leaves older cells alone; it succeeds exactly if code and nesting find room |
| ControlLaws.IfElseCells | fvm_asm.nasm:3477-3548 | `IF p ELSE q THEN` compiles to ?FALSE, a jump behind the jump that follows p, p, a jump behind q, and q |
| ControlLaws.UnlessCells | fvm_asm.nasm:3499-3520 | `UNLESS p THEN` compiles to ?TRUE, a jump behind p, and p |
| ControlLaws.WhileCells | fvm_asm.nasm:3644-3679 | `BEGIN p WHILE q REPEAT` compiles to p, ?FALSE, a jump behind everything, q, and a jump to p |
| ControlLaws.LoopCells | fvm_asm.nasm:3578-3642 | UNTIL and AGAIN jump back to BEGIN, the former behind ?FALSE |
| OnePass.HolesAscend | fvm_asm.nasm:3477-3679 | all open operands lie in the code of the program, at ascending addresses, so no two are the same |
| OnePass.FilledOnce | fvm_asm.nasm:3523-3548 | every open operand is filled exactly once, and no other address is ever filled |
| OnePass.JumpsStayInside | fvm_asm.nasm:3477-3679 | every jump operand in the code of a program lies between its start and its end |
| FlatVm.Fvm.constructor | fvm_asm.nasm:186-239 | the layout at start: dictionary, parameter stack and return stack in one block, empty but for QUIT on the return stack |
| FlatVm.Fvm.Next | fvm_asm.nasm:64-76 | one NEXT on the block of memory is one step of the machine on cells and stacks |
| FlatVm.Fvm.RunSteps | fvm_asm.nasm:343-395 | over any number of steps the registers stay in their own regions or the run stops, and the block holds what the machine says: a push or an append in one region never changes another |
| FlatVm.Fvm.DoPrim | fvm_asm.nasm:483-939 | the primitives worked out in place do what their effect on the stack says, and leave return stack and dictionary alone |
| PrimitiveLaws.SignedOrder | fvm_asm.nasm:683-780 | `<` is irreflexive and transitive, and holds between a cell and that cell after 1+ unless it was 2^63 - 1; exactly one of `<`, `=`, `>` holds, `<=` and `>=` are the complements of `>` and `<`; with the sign bit written out, `<` is the order of the signed numbers |
| PrimitiveLaws.UnsignedOrder | fvm_asm.nasm:693-780 | the same of U<, U>, U<= and U>=, up to 2^64 - 1; U< is the order of the numbers themselves |
| PrimitiveLaws.ComparisonsAnswer | fvm_asm.nasm:683-791 | on any stack, a comparison replaces its two operands by all ones or by zero |
| PrimitiveLaws.TestsAnswer | fvm_asm.nasm:606-681 | so does a test with its one operand |
| PrimitiveLaws.TestsCompareWithZero | fvm_asm.nasm:606-681 | each test of one cell agrees with the comparison of that cell with zero |
| PrimitiveLaws.Arithmetic | fvm_asm.nasm:483-515 | +, -, *, 1+, 1-, NEG and CELLS leave the one cell that is the integer result modulo 2^64, and the stack beneath as it was |
| PrimitiveLaws.UnsignedDivision | fvm_asm.nasm:535-603 | U/ leaves q, UMOD r and U/MOD r above q, where q times the divisor plus r is the dividend and r is less than the divisor |
| PrimitiveLaws.SignedDivision | fvm_asm.nasm:525-594 | the same of /, MOD and /MOD with the signed numbers, r being smaller than the divisor and of the sign of the dividend; -2^63 divided by -1 is refused by the processor |
| PrimitiveLaws.QuotientUnique | fvm_asm.nasm:525-594 | there is only one such quotient and remainder |
| PrimitiveLaws.UnsignedScaling | fvm_asm.nasm:556-563 | the scaling word divides the whole product of its first two operands, and is refused exactly if the quotient is no cell |
| PrimitiveLaws.SignedScaling | fvm_asm.nasm:545-553 | so does the signed one, cutting towards zero |
| PrimitiveLaws.LogicBits | fvm_asm.nasm:793-853 | every bit of the result of AND, OR, XOR, NAND, NOR, XNOR and NOT comes from the bits at the same place |
| PrimitiveLaws.Shuffles | fvm_asm.nasm:872-939 | which operand DUP, SWAP, ROT, OVER and DROP leave where |
| PrimitiveLaws.Errors | fvm_asm.nasm:483-939 | an operand that is missing is an underflow, whatever else is wrong; then comes the room for a result, or a divisor that is zero; otherwise there is no error but those of the processor |
| FlatVm.Fvm.DoJumpTo | fvm_asm.nasm:413-418 | jumping through a codeword: DOCOL, the codeword of created words, RUNCODE or a routine, with all their checks |
| FlatVm.Fvm.DoReturnStack | fvm_asm.nasm:2927-2945 | >R and R> move one cell between the stacks, or stop |
| FlatVm.Fvm.DoAppend | fvm_asm.nasm:3011-3020 | one cell is appended and HERE moves, or the run stops when the space is used up |
| FlatVm.Fvm.DoAllot | fvm_asm.nasm:3399-3421 | ALLOT on the block is ALLOT of the machine: HERE moves over cells that keep what they held, or the run stops for a negative number or for lack of room |
| Machine.AllotMoves | fvm_asm.nasm:3399-3421 | HERE moves by as many cells as asked for if and only if these are fewer than 2^60 and there is room; it never passes the end of the space, the cells below it keep what they held, and the error is that of a negative number exactly if the number is negative as a cell or again after the shift |
| Machine.AllotIsModulo | fvm_asm.nasm:3403-3416 | the two sign tests and the shift work on the number modulo 2^61 |
| Machine.AllotWraps | fvm_asm.nasm:3403-3419 | 2^61 + 1 ALLOT passes both tests and reserves one cell, 2^61 ALLOT none |
| FlatVm.Fvm.DoCreate | fvm_asm.nasm:2814-2853 | a header is appended, becomes the newest entry, and the new HERE is pushed |
| FlatVm.Fvm.DoToken | fvm_asm.nasm:3477-3679 | every compiling word, patching cells in place, does to the block what the one-pass compiler does to code and return stack |
| FlatVm.Fvm.CompileText | fvm_asm.nasm:3271-3343 | compiling a text word by word into the block gives exactly the code, return stack, open and filled operands of the one-pass compiler |
| ColonDefinitions.ColonDefinition | fvm_asm.nasm:3053-3108 | `: T … ;` appends DOCOL, the code of the text for that address and EXIT, or stops for lack of room |
| Interpreter.RunWord | fvm_asm.nasm:3271-3343 | a word executed by the interpreter does what it does as part of a program |
| Widening.MoreRoom | fvm_asm.nasm:361-369 | more fuel, fewer return cells in use, and more words in memory change nothing in an evaluation, in what it leaves on the stack or stores, unless it had no end, overflowed the return stack, or met an address that was no cell before |
| Widening.HereTells | fvm_asm.nasm:1298-1303 | HERE pushes different addresses in the memory before a definition and in the one after it |
| MemoryLaws.LayMeans | fvm_asm.nasm:1298-1303 | in any memory with room, `HERE x ,` leaves one address above the old stack; the cell there holds x afterwards, no other cell has changed, and HERE is the cell behind it |
| MemoryLaws.LayFetchMeans | fvm_asm.nasm:3011-3020 | in any memory with room, `HERE x , @` means x on the old stack |
| MemoryLaws.LayFetchRuns | fvm_asm.nasm:3011-3020 | the cells that `HERE x , @` compiles to run to x on the old stack |
| MemoryLaws.StoreFetchMeans | fvm_asm.nasm:856-871 | `x a ! a @` means x on the old stack, and changes the cell at a alone |
| MemoryLaws.AccessErrors | fvm_asm.nasm:856-871 | the words on memory stop for operands that are missing, and for room that is missing on the stack or in the dictionary |
| MemoryLaws.CompileStep | fvm_asm.nasm:3182-3191 | COMPILE lays the cell behind it at HERE and skips it, if there is room |
| MemoryLaws.ThereAndBack | fvm_asm.nasm:2927-2945 | >R moves the top cell to the return stack, and R> brings it back |
| MemoryLaws.ReturnStackErrors | fvm_asm.nasm:2927-2945 | their errors, in the order in which they are found |
| Interpreter.InterpretingIsCompiling | fvm_asm.nasm:3271-3343 | running a linked word whose body is a text of numbers and words ends exactly as executing the text word by word, in both directions, in stacks and memory, unless the one return cell of the extra call is missing or the text changes a cell of code |
| ColonDefinitions.ColonLinks | fvm_asm.nasm:3053-3108 | after `: T … ;` the memory is linked with T and everything that was linked before, no older cell has changed, and the address of T was free |
| ColonDefinitions.ColonInterprets | fvm_asm.nasm:3271-3343 | what the interpreter does with a text before `: T … ;` it does with T after it, with the same stores, in both directions, unless the one return cell of the extra call is missing, the text meets an address that was no cell before, or it changes a cell of code |
| DefiningWords.CreateRun | fvm_asm.nasm:2907-2923 | CREATE makes a header, the codeword of created words and an empty code pointer, and leaves both stacks alone |
| MemoryLaws.CreatedHeader | fvm_asm.nasm:2814-2923 | what CREATE leaves from HERE on is the address of the header before, the name field, the codeword and zero, and everything else is as it was |
| MemoryLaws.NameFieldFits | fvm_asm.nasm:2814-2853 | a name field has room for the length byte and the name, and not a cell more |
| DefiningWords.DoesRun | fvm_asm.nasm:2989-3006 | DOES> stores the address behind it in the newest word and returns to the caller of the word it stands in |
| Definers.BirthRun | fvm_asm.nasm:2907-2923 | a run of a defining word, however many others it calls to make its word, makes one word, leaves the stack and memory that its setup and building parts mean, changes no code, and returns to the caller with the return stack of the call |
| Definers.DoesBirth | fvm_asm.nasm:2876-3006 | with DOES> at its end the new word gets the code behind it, which is not run now, and control returns to the caller of the defining word |
| DefiningWords.UserWordRun | fvm_asm.nasm:2876-2891 | a created word pushes the address of its own parameter field; without a code pointer that is all, with one it does exactly what the tail means and returns with the return stack restored; either overflow stops it |
| Definitions.DefinitionRun | fvm_asm.nasm:2876-3006 | a definition returns to its caller and leaves a memory in which the nucleus, the colon words and the new word with its fields and tail are in place |
| Definitions.WordStands | fvm_asm.nasm:2876-3006 | whatever is defined, compiled, run or stored after it, a word made by a defining word keeps codeword and code pointer, its fields keep what they hold if they are not open to stores, and its tail stays in place |
| Definitions.FieldsApart | fvm_asm.nasm:2907-2923 | in a session of definitions, the fields of an earlier word end before a later word begins |
| Definitions.EveryWordMade | fvm_asm.nasm:2876-3006 | after any session, each run of a defining word has returned to its caller, its word holds its fields unless these are open to stores, shares none of their cells with another word made, and does exactly what its tail means when called |
| SessionSteps.ProgramLives | fvm_asm.nasm:3271-3343 | a program that ends without changing a cell of code may run at any point of a session |
| SessionSteps.StoreLives | fvm_asm.nasm:864-871 | so may `!` change any dictionary cell that is not known to hold code |
| SessionSteps.ColonLives | fvm_asm.nasm:3053-3108 | a colon definition may stand at any point of a session, and its word can be called by everything defined later |
| LibraryWords.LibraryCode | fvm_library.f:27-33 | the cells that the library's VARIABLE, CONSTANT and ARRAY and the engine's VAL are compiled to |
| LibraryWords.ConstantMakes | fvm_library.f:30 | a run of CONSTANT takes the number on top of the stack into the one field of the new word |
| LibraryWords.VariableMakes | fvm_library.f:27 | a run of VARIABLE leaves the stack alone and makes one field that holds zero |
| LibraryWords.ArrayMakes | fvm_library.f:33 | a run of ARRAY makes as many fields as asked for if and only if these are fewer than 2^60; in general it takes the number modulo 2^61 |
| LibraryWords.ValueMakes | fvm_asm.nasm:2947-2980 | VAL, which makes its word by way of VARIABLE, makes what VARIABLE makes |
| LibraryWords.ConstantPushes | fvm_library.f:30 | after any session, calling the word that CONSTANT made of x pushes x, or stops with the overflow of the stack that is full |
| LibraryWords.FetchingPushes | fvm_asm.nasm:2947-2980 | after any session, a word with `@` behind DOES> pushes what its first field then holds, and what it was given if the field is not open to stores |
| LibraryWords.AddressPushes | fvm_library.f:27-33 | after any session, a variable or array pushes the address of its own first field, and all its fields are there |
| StringLiteral.Embedder.Collect | fvm_library.f:98-117 | STRBUF holds at most 255 of the bytes in front of the closing quote, without the one space behind S"; the input stands behind the quote |
| StringLiteral.QuotedText | fvm_library.f:98-117 | a text without a quote, with or without one space in front of it, is the string if a quote follows it, and what follows the quote is left |
| StringLiteral.Embedder.StoreChar | fvm_library.f:76-95 | one byte is appended unless 255 are there |
| StringLiteral.Embedder.CompileSkip | fvm_library.f:197-225 | a jump whose operand is the address behind the bytes, and the bytes of the string at an aligned address |
| StringLiteral.Embedder.Compile | fvm_library.f:192-230 | the cells appended are the code of an embedded string in the layout, the bytes at the address it pushes are exactly the string, the stack is as before, nothing else is written; it fails exactly if the space does not suffice |
| StringLiteral.StringRun | fvm_library.f:187-191 | the emitted cells take three steps, none of them inside the data, and push address and length |
| StringLiteral.CodeOfCells | fvm_library.f:187-191 | jump, data and two literals in memory are the code of the layout, so that patches around them stay valid |
| ByteCells.CMove | fvm_asm.nasm:3684-3713 | bytes are moved correctly also if the ranges overlap, in either direction, and no others are changed |
| ByteCells.LowByteFirst | fvm_asm.nasm:856-871 | the first byte of a cell counts ones and the last one 2^56 |
| Bits.AlignedIs | fvm_library.f:206 | adding 7 and masking with NOT 7 rounds up to whole cells |
| FixupExp.FixupExp | fvm_asm.nasm:3827-3985 | text and exponent are those of the layout specification, for every number of one leading digit and every exponent the registers hold, given room; and in terms of what comes out: a positive exponent is gone if it is within the wanted digits and otherwise lower by the number of digits, the places behind the dot are fewer by as much, and a nonzero digit stays in front; a negative one is gone unless all digits are wanted, and is zeros behind `0.` |
| FixupExp.KeepsValue | fvm_asm.nasm:3827-3985 | text and new exponent are the same number as before, in every base, if and only if the exponent is not negative, or the digits fill the maximum, or it is within its limit and 256, or the number is zero |
| FixupExp.ShiftedKeepsValue | fvm_asm.nasm:3901-3965 | moving the dot and lowering the exponent by as much keeps the number |
| FixupExp.NegativeKeepsValue | fvm_asm.nasm:3855-3895 | the same for a negative exponent, with its exact condition |
| FixupExp.LosesExponent | fvm_asm.nasm:3865-3875 | 1e-3 with a limit of one place is written as 0.1 |
| FixupExp.WrapsCounter | fvm_asm.nasm:3881-3887 | 1e-257 is written as 0.1 whatever the limit is |
| FixupExp.PositiveShift | fvm_asm.nasm:3901-3965 | the digits that move in front of the dot, without a leading zero, and zeros for those that are missing |
| FixupExp.LeadZeros | fvm_asm.nasm:3881-3887 | the number of zeros is one less than the shift, modulo 256 |
| FixupExp.MoveDigits | fvm_asm.nasm:3889-3894 | all digits, and the dot left out |
| FixupExp.RepMove | fvm_asm.nasm:3800-3809 | copying stops at the count or at the end of the text; a count of zero copies everything |
| TrimRound.ZeroRun | fvm_asm.nasm:4211-4228 | the end moves in front of the trailing zeros; the buffer is not changed |
| TrimRound.ZeroRunKeepsValue | fvm_asm.nasm:4211-4228 | the number stays the same if and only if there is a dot, or nothing to trim, or nothing but zeros |
| TrimRound.ZeroRunTrimsWhole | fvm_asm.nasm:4211-4228 | 100 becomes 1 |
| TrimRound.NineRun | fvm_asm.nasm:4236-4276 | trailing nines and dots are dropped and the digit in front of them is counted up in place; everything else is unchanged |
| TrimRound.NineRunAddsOneUnit | fvm_asm.nasm:4236-4276 | the result is the old value plus one unit in its last place, also across the dot, if and only if a digit is left, none in front of the dot is lost, and it is not a '9' in a base above ten |
| TrimRound.NineRunDropsWholeDigit | fvm_asm.nasm:4254-4263 | 19.9 becomes 2 |
| TrimRound.NineRunEmpties | fvm_asm.nasm:4236-4276 | 9.99 becomes empty |
| TrimRound.NineRunLeavesDigits | fvm_asm.nasm:4259-4261 | in base sixteen 0.9F becomes a text that is no number |
| Numeral.ReadDecides | fvm_asm.nasm:2642-2765 | a text is accepted if and only if it is in the grammar, and is then taken apart in the only possible way |
| Numeral.ReadIsSound | fvm_asm.nasm:2642-2765 | what is accepted is the text of a well-formed numeral |
| Numeral.ReadIsComplete | fvm_asm.nasm:2642-2765 | the text of every well-formed numeral is read back as that numeral |
| Numeral.MarkMayBeDigit | fvm_asm.nasm:2205-2236 | 1e2 is one integer in base fifteen and has an exponent in base fourteen |
| Numeral.SignIsLost | fvm_asm.nasm:2642-2668 | the four cells of a text with minus and with plus agree if and only if the whole part is worth a multiple of 2^63 |
| Numeral.HalfLosesSign | fvm_asm.nasm:2642-2668 | -0.5 and 0.5 are both accepted and give the same cells |
| Numeral.LargeLosesSign | fvm_asm.nasm:2642-2668 | in base sixteen, whole parts of 2^63 and -2^63 give the same cells |
| NumberReader.Reader.MatchNum | fvm_asm.nasm:2642-2765 | two cells replace address and length on every path: a number and true if the text is in the grammar, two zeros if not; mantissa, fraction, fraction digits and exponent hold the positional values modulo 2^64; a base from 2 to 36 stays as it was, and any other one becomes 10 first |
| NumberReader.Reader.DigitSequence | fvm_asm.nasm:2336-2413 | number and value modulo 2^64 of the digits at the top of the text, which is left behind them |
| NumberReader.Reader.SignedSequence | fvm_asm.nasm:2417-2476 | the same with a sign in front |
| NumberReader.Reader.Digit | fvm_asm.nasm:2205-2236 | the value of a character as a digit of the current base, or -1 |
| NumberReader.Reader.GetChar | fvm_asm.nasm:2176-2198 | the next character, or -1 at the end of the text |
| NumberReader.Reader.Back | fvm_asm.nasm:2240-2254 | one character back, unless that place is the start of the NAME text |
| NumberReader.Reader.CheckBase | fvm_asm.nasm:2158-2171 | a base from 2 to 36 stays, and any other one becomes 10 |
| NumberWriter.Writer.UToDot | fvm_asm.nasm:1885-1913 | the digits of the number in the current base are appended to the DOT buffer, as far as it holds 255 characters |
| NumberWriter.Writer.Dot | fvm_asm.nasm:1942-1961 | sign, digits and a blank are sent to the output |
| NumberWriter.Writer.UDot | fvm_asm.nasm:1926-1938 | digits and a blank are sent to the output |
| NumberWriter.Writer.ToDot | fvm_asm.nasm:1841-1866 | one character is appended unless 255 are there |
| NumberWriter.DigitsAreExact | fvm_asm.nasm:1885-1913 | the digits printed are digits of the base, have the value that was printed, and start with a zero only for zero |
| NumberWriter.FitsBuffer | fvm_asm.nasm:1841-1848 | no number of any base takes more than 65 characters, so nothing is ever cut off |
| NumberWriter.SignedRoundTrip | fvm_asm.nasm:1942-1961 | parsing what `.` prints gives back the cell, for every cell and base, -2^63 included |
| NumberWriter.UnsignedRoundTrip | fvm_asm.nasm:1926-1938 | parsing what U. prints gives back the cell |
| NumberLaws.PrintAndRead | fvm_asm.nasm:1926-1961 | for every cell and every base from 2 to 36, what `.` or U. sends to the output ends in a blank, and ?MATCHNUM, started in that base on the text before it, leaves the same cell and true |
| NumberLaws.DigitsInOrder | fvm_asm.nasm:2205-2236 | the digits are 0 to 9 and A to Z in this order, in either case, and nothing else |
| NumberLaws.PrintedDigit | fvm_asm.nasm:1885-1913 | digits above nine are printed as capital letters |
| NumberLaws.ReadFromTheLeft | fvm_asm.nasm:2336-2413 | the first digit is worth most: 1234 is read as that number |
| NumberLaws.BetweenDigits | fvm_asm.nasm:2642-2765 | between two digits there may be a digit, a dot, or one of three marks of an exponent, and nothing else |
| NumberLaws.InFront | fvm_asm.nasm:2417-2476 | in front of a digit there may be a digit, a plus or a minus, and nothing else |
| NumberLaws.AllParts | fvm_asm.nasm:2642-2765 | mantissa and exponent have signs of their own, and the digits of the fraction are counted with their leading zeros |
| InputWords.WordsAcross | fvm_asm.nasm:1723-1741 | each of the bytes 0, 9, 10, 13 and 32 between two texts separates their words |
| InputWords.SeparatorsAre | fvm_asm.nasm:1723-1741 | A and B with a byte between them are two words if and only if it is one of these five |
| InputWords.PiecesOf31 | fvm_asm.nasm:2030-2056 | characters without a space are one word up to 31 of them, and beyond that 31 and the words of the rest |
| InputWords.CaseDoesNotMatter | fvm_asm.nasm:1963-1976 | texts that differ only in the case of letters have the same words |
| InputWords.WordsAreUpper | fvm_asm.nasm:1963-1976 | no word has a small letter in it |
| InputWords.OneLetter | fvm_asm.nasm:1963-1976 | a small letter becomes its capital, and any other character stays what it is |
| InputWords.WordsAtSeam | fvm_asm.nasm:1396-1404 | with nothing between two texts, the words of both come one after the other if and only if the second is empty or begins with a space, or the first ends in a space or in whole pieces of 31 characters |
| InputWords.RunTogether | fvm_asm.nasm:1396-1404 | a text that ends in A and one that begins with B have the word AB between them |
| NestedInput.Input.GetChar | fvm_asm.nasm:1766-1802 | the putback character, or the first character ahead in the contexts and the file, or -1 if there is none; the order of all characters, those put back included, is kept if and only if the condition on the contexts left holds |
| NestedInput.RestoredTooLate | fvm_asm.nasm:1381-1405 | the blank that ?WORD puts back between B and A, restored after an evaluation, breaks that condition: it comes after A |
| NestedInput.Input.ToIn | fvm_asm.nasm:1407-1427 | contexts at their end are left without losing a character |
| NestedInput.Input.Read | fvm_asm.nasm:1596-1610 | a refill changes nothing in what is left of the file |
| NestedInput.Input.SkipSpc | fvm_asm.nasm:1804-1828 | the first character that is no space is put back, in front of everything that follows it |
| NestedInput.Input.ReadWord | fvm_asm.nasm:1993-2056 | NAME holds the first of the words still to come and the others remain; an empty word exactly if there are none |
| NestedInput.Input.Eval | fvm_asm.nasm:5145-5151 | the words to come are those of the text followed by those that were to come before, for any nesting; refused exactly if more than five contexts are saved |
| NestedInput.Input.EvalPop | fvm_asm.nasm:1381-1405 | the suspended context is restored with its putback character; without one the file is read again |
| NestedInput.Input.constructor | fvm_asm.nasm:173-181 | at start the library is under evaluation with nothing beneath it; what is ahead is the library and then the file, whatever blocks it is read in; the words are those of both exactly if they do not run together at the seam |
| NestedInput.Pushed | fvm_asm.nasm:1324-1370 | after a push the characters ahead are the text, one blank, and what was ahead before, and every putback character to be restored stands behind a space |
| Dictionary.Dict.Create | fvm_asm.nasm:2814-2853 | link, length byte and name (cut at 31) are laid at HERE and the entry becomes the newest; HERE is its code field; false exactly if there is no room |
| Dictionary.Dict.Find | fvm_asm.nasm:2113-2151 | the walk along the links ends at the newest entry of that name that is not hidden, or at 0 |
| Dictionary.LookupIsNewest | fvm_asm.nasm:2113-2151 | 0 if and only if there is no visible entry of that name; otherwise no newer one is visible under it |
| Dictionary.HiddenIsPassedOver | fvm_asm.nasm:4514-4527 | once the newest entry is hidden, its name finds the next older visible one, or nothing |
| Dictionary.Dict.MatchDef | fvm_asm.nasm:2060-2091 | true exactly if name length and name agree, the flag bits left out of account |
| Dictionary.Dict.ToCfa | fvm_asm.nasm:2780-2806 | >CFA of an entry is the HERE that was left when it was made, whatever flags were set since |
| Dictionary.Dict.Hide | fvm_asm.nasm:4514-4527 | the newest entry becomes hidden and keeps its name and other flag |
| Dictionary.Dict.Unhide | fvm_asm.nasm:4497-4511 | the newest entry becomes visible and keeps its name and other flag |
| Dictionary.Dict.Immediate | fvm_asm.nasm:3073-3083 | the newest entry becomes immediate and keeps its name and other flag |
| Dictionary.Dict.Colon | fvm_asm.nasm:3053-3067 | the entry made by `:` is not hidden: the flag goes to a free byte |
| Dictionary.Flags | fvm_asm.nasm:4497-4527 | setting, clearing and testing a flag leaves name length and the other flag alone |
| Dictionary.FlagValues | fvm_asm.nasm:4497-4527 | the immediate flag counts 0x80 and the hidden flag 0x20 beside the length |
| AstDelete.Heap.Delete | fvm_yulark.f:140-177 | every block of a tree with distinct blocks is freed, no other block is freed or changed, freed cells are not accessed again, one cell is consumed; a null pointer stays on the stack |
| AstDelete.Heap.DropBranch | fvm_yulark.f:147-165 | one round of the loop frees the last branch that is left as a whole |
| AstDelete.FreesEachOnce | fvm_yulark.f:140-177 | every node and branch array is freed exactly as often as it occurs in the tree |
| AstDelete.ChildrenFirst | fvm_yulark.f:140-177 | a branch is freed completely before the array of its parent, and that before the parent |
| AstDelete.LastBranchFirst | fvm_yulark.f:147-165 | of two leaves the last one is freed first, then the other one, the array and the node |
| Trough.Trough.Fill | fvm_yulark.f:311-360 | as much of the text ahead moves to the trough as fits under 1023 and, on a terminal, stands in front of the line feed; NUL follows, and no text is lost or reordered |
| Trough.Trough.ReadChar | fvm_yulark.f:285-308 | the character put back, or the next of the input, which is counted as a line if it is a line feed and recorded in the ring |
| Trough.Trough.Chomp | fvm_yulark.f:400-440 | the bite is as long as asked for, or all there is; it is the front of the trough, the rest moves down with its NUL, and no text is lost |
| Trough.Trough.Chuck | fvm_yulark.f:446-482 | the same without returning the bite |
| Trough.Trough.IsEmpty | fvm_yulark.f:364-396 | a trough that begins with NUL is refilled as far as it goes, and true is left exactly at the end of the input or if it then begins with NUL; a line feed in front of new text is dropped; the whole text keeps its order if and only if none is dropped while something is in the trough |
| Trough.LineFeedOvertakes | fvm_yulark.f:364-396 | on a terminal, the input NUL, A, line feed, B ends up with the line feed in front |
| Trough.Trough.RingPut | fvm_yulark.f:226-243 | the ring holds the last 63 characters in order |
| Trough.LastRecorded | fvm_yulark.f:226-243 | of all characters recorded, the last 63 remain |
| Trough.Trough.RingGet | fvm_yulark.f:247-259 | the oldest character, or -1 if there is none |
| Growth.ScalingString.Append | utilities.cpp:51-75 | the text is appended and cut at the maximum; every reallocation triples the capacity or reaches the maximum, and twice the bytes ever moved never exceed the capacity until then, and never three times the capacity |
| Growth.CappedAppend | utilities.cpp:62-70 | cutting after every append is cutting once |
| LineReader.TextInfile.ReadLine | textinfile.cpp:34-71 | the first line still to come with its newline, cut at the maximum; false exactly if there is none; the line number goes up by one if the newline was there |
| LineReader.TextInfile.ReadAll | textinfile.cpp:34-71 | successive lines are those of the file, and the line number counts its newlines, whatever the size of the buffer |
| LineReader.LinesPartition | textinfile.cpp:34-71 | the lines together are the file; each has a newline at its end only, the last one perhaps none |
| LineReader.TextInfile.Read | iobuffer.cpp:51-69 | the buffer is filled as far as possible, and is not full only at the end of the file |

## Left out

- Floating point: the x87 words, GETREAL, FPOW, FLOG, DIGITS!, FIXEXPON and `F.`; what GETREAL makes of the four cells of a number is a function given from outside.
- PICK and ROLL as machine words: their depth checks are looser than their accesses. The number words use them at depths that are there.
- REPEAT reads a second return cell that it does not check; with only one there, and with any compiling word applied to addresses outside the code, the model stops.
- `@` and `!` reach the cells of the built-in words and of the dictionary only; an access outside them stops the model, and `!` changes dictionary cells alone. The dictionary space starts at a cell address.
- CCREATE is one routine in `Machine`: the name fields that the words to come would get are given from outside. `Dictionary` models the header byte by byte, `NestedInput` the reading of the name.
- The stack cells that INTERPRET, FIND and ?MATCHNUM use in passing between two words of a text.
- FIXUPEXP with counts outside 15 bits or exponents outside 16 bits, and with too little room in the target.
- ?MATCHNUM on a text that contains the first byte of the NAME text behind its own first byte; texts at NAME + 1, where ?WORD leaves them, do not.
- U>DOT with a base outside 2 to 36, which it does not check.
- EVAL of a text at address zero, which the engine takes for no evaluation.
- Read errors: the input is a list of blocks, a file is read until its end.
- std::string::reserve is taken to allocate exactly what it is asked for.
- YU-ASTN-CREATE and YU-ASTN-ADDBR; the regular expressions and the token words built on the trough.
- `."`, `Z"` and `C"`, which embed strings as S" does; COUNTDIG and OUTMANT around the trimming words.
- CALLC, the allocation wrappers, SYSREAD, SYSWRITE, terminal detection, colour and dump words, the key word tables, and the compressor programs.
- FlatVm.Fvm.DoCreate: takes the name field ready-made from outside; the engine builds it from address and length on the stack, which `Dictionary.Dict.Create` models byte by byte.
- FlatVm.Fvm.CompileText: takes the words of the text as read and found; reading is `NestedInput.Input.ReadWord`, finding is `Dictionary.Dict.Find`.
- ColonDefinitions.ColonDefinition: begins behind the header; the header, the flag byte and the mode switch of `:` and `;` are not in its contract (`Dictionary.Dict.Colon` has the first two, `SessionSteps.HeaderLives` the header as cells).
- AstDelete.Heap.Delete: its stacks are unbounded; the engine takes three parameter cells and a return cell for each level of the tree and stops on a tree too deep for them.
- Structured programs have `@`, `!`, `,`, HERE, ALLOT, LATEST and >CFA, but no `C@`, `C!`, INCR, `>R` and `R>`; they call colon words only, and words made by CREATE are called from threaded code outside them (`DefiningWords.UserWordRun`).
- Simulation.CompilerCorrect: says nothing of how a program goes on that changes a cell of code.
- ColonDefinitions.ColonInterprets: speaks of texts without HERE, `,` and ALLOT, which work above the definition once it is there; `Widening.HereTells` shows the difference. An address that was no cell before may be one of the definition.
- Definitions.EveryWordMade: for a word whose fields are open to stores it says where they are; `LibraryWords.FetchingPushes` says what `@` makes of what they hold.
- The engine's own CONSTANT, which makes a colon word with a literal; the library's takes its place.
- OnePass.OnePassIsLayout: does not speak of texts that are not properly nested; these are covered as state by `FlatVm.Fvm.CompileText` alone.
