# Advent of Code 2024 solvers, modelled in Dafny

The repository solves the 2024 Advent of Code puzzles, one Rust program per day
(`src/dayNN/main.rs`), on top of a small geometry helper (`src/lib.rs`).  Apart from reading
the puzzle input and printing the answers, each solver is a deterministic computation over
integers, strings, grids and small collections.  This project models those computations, one
Dafny module per source file, and proves what each solver promises about its answer.

- `geometry.dfy` (module `Geometry`): the point addition, Manhattan distance and rectangle test
  of `src/lib.rs`.
- `common.dfy` (module `Common`): the Rust standard-library behaviour the solvers rely on:
  `str::split`, `str::lines`, `trim` (with Unicode white space), integer `parse`,
  `to_string`, truncating `/` and `%`, and `^` on non-negative and on signed integers.  Each
  comes with its round trip or defining property.
- `search.dfy` (module `Search`): what the shortest-path solvers of days 16, 18 and 20 share.
  This is the first-occurrence search used to locate the start and end markers, the binary
  heap's `pop` as taking an item of least cost from a multiset, and the grid measures that
  bound their loops.
- `day01.dfy` … `day25.dfy` (modules `Day01` … `Day25`; day 15 is not part of this model):
  - Each solver keeps the source's form.  Code that updates state in place is a `class`, or
    a `method` with loops, proved against a specification function.  Pure code is a set of
    functions with lemmas.
  - Each has lemmas connecting the answer to an independent definition of what the puzzle
    asks.  Examples are an optimal route, the set of fitting pairs, or the count of
    decompositions.
  - Most also have lemmas that replay the source's own unit tests on the sample inputs.  The
    tests the verifier cannot evaluate are listed under "Left out", each with its reason.

A panic of the source (an `unwrap` on `None`, an `expect`, an out-of-range index, an
`assert!`) is modelled as an error value, usually `None`.  It is a precondition only where the
source's caller guarantees it or the puzzle's input format rules it out, and each such
precondition on a solver is listed under "Left out".  Integers are unbounded; where the
source depends on machine width (the 32-bit shift register of day 22, the two's-complement
XOR of days 17 and 22, truncating division), the operation is written out explicitly.  A loop the source may run for ever (the VM of day 17, gate propagation of day
24, the guard walk of day 6) takes an explicit step budget, and lemmas state what a budget
guarantees.

## Model

| member | source | states |
|---|---|---|
| Common.ParseInt | src/day01/main.rs:18-19 | `parse::<i64>` accepts an optional '-' and a non-empty run of digits and reads their value; the empty string fails |
| Common.ParseIn | src/day24/main.rs:48-52 | parsing into a bounded integer type succeeds exactly when the text is an integer inside the type's range, with that value |
| Common.ParseI64s | src/day05/main.rs:24 | mapping `parse::<i64>().unwrap()` over pieces gives one value per piece, each the piece's parse, or fails exactly when some piece does not parse |
| Common.ParseIntToString | src/day09/main.rs:34 | parsing the decimal text of any integer gives the integer back |
| Common.NatToString | src/day09/main.rs:34 | a natural number prints as a non-empty run of digits |
| Common.NatToStringValue | src/day09/main.rs:34 | the printed digits read back as the number |
| Common.IntToString | src/day09/main.rs:34 | an integer prints as digits with at most a sign |
| Common.Split | src/day02/main.rs:36 | `split` on one character gives at least one piece, none holding the separator, and a string without it is one piece |
| Common.SplitJoin | src/day02/main.rs:36 | joining the pieces of `split` with the separator gives the original string |
| Common.JoinSplit | src/day02/main.rs:36 | splitting pieces joined with a separator they do not hold gives the pieces back |
| Common.SplitPrefix | src/day02/main.rs:36 | a separator-free prefix followed by the separator is the first piece |
| Common.SplitOn | src/day25/main.rs:20 | `split` on a string separator gives at least one piece |
| Common.SplitOnJoin | src/day25/main.rs:20 | joining the pieces of a string split with the separator gives the original string |
| Common.SplitOnNone | src/day25/main.rs:20 | a string without the separator's first character is one piece |
| Common.SplitOnPrefix | src/day25/main.rs:20 | a prefix without the separator's first character, followed by the separator, is the first piece |
| Common.StripCr | src/day10/main.rs:41 | a line loses at most one trailing '\r' |
| Common.MapStripCr | src/day10/main.rs:41 | every line has its trailing '\r' stripped, in order |
| Common.Lines | src/day10/main.rs:41 | `lines` of the empty string is empty, a string without '\n' is one line kept whole (a final '\r' included), and no line holds '\n' |
| Common.TrimStart | src/day19/main.rs:28 | trimming the front leaves a suffix that starts with no whitespace |
| Common.TrimEnd | src/day19/main.rs:28 | trimming the end leaves a prefix that ends with no whitespace |
| Common.TruncDiv | src/day11/main.rs:29 | Rust's `/` by a positive divisor rounds toward zero |
| Common.TruncRem | src/day11/main.rs:29 | Rust's `%` by a positive divisor completes the division and takes the dividend's sign |
| Common.Digits | src/day11/main.rs:15-23 | the divide-by-ten loop counts at least one digit |
| Common.DigitsBounds | src/day11/main.rs:15-23 | the digit count d satisfies 10^(d-1) <= the magnitude < 10^d, and 0 has one digit |
| Common.Abs | src/lib.rs:29 | the magnitude is the value or its negation, and never negative |
| Common.XorZero | src/day22/main.rs:73-77 | XOR with zero is the identity and a value XORed with itself is zero |
| Common.XorCommutative | src/day22/main.rs:73-77 | XOR is commutative |
| Common.XorCancel | src/day22/main.rs:73-77 | XORing twice with one value gives the original |
| Common.IntXor | src/day17/main.rs:65 | XOR of signed integers agrees with the bitwise XOR on non-negatives and is negative exactly when the signs differ |
| Search.IndexOf | src/day16/main.rs:64 | `find` gives the first index holding the character, or None when the row has none |
| Search.Locate | src/day16/main.rs:62-79 | the position kept for a marker is in the first row holding it, at its first index there; None when no row holds it |
| Search.Pop | src/day16/main.rs:129 | popping a non-empty heap removes one item of least cost and keeps the rest |
| Search.TotalUpdate | src/day18/main.rs:113-117 | lowering one recorded cost lowers the sum of the costs by the difference, which bounds the search loop |
| Search.TotalNonNegative | src/day18/main.rs:113-117 | a grid of non-negative entries has a non-negative total |
| Search.CountBelowUpdate | src/day18/main.rs:113-117 | bringing one entry below the limit counts one more reached cell |
| Search.CountBelowNone | src/day18/main.rs:113-117 | a grid with no entry below the limit counts none |
| Search.CountBelowBound | src/day18/main.rs:113-117 | at most every cell of the grid is counted |
| Geometry.Add | src/lib.rs:16-21 | point addition is componentwise: subtracting the right operand from the sum gives back the left one |
| Geometry.Distance | src/lib.rs:28-30 | the Manhattan distance is zero exactly for equal points and bounds each coordinate gap |
| Geometry.DistanceSymmetric | src/lib.rs:28-30 | the distance from p to q equals the distance from q to p |
| Geometry.DistanceTranslation | src/lib.rs:28-30 | shifting both points by the same vector keeps their distance |
| Geometry.DistanceTriangle | src/lib.rs:28-30 | the distance obeys the triangle inequality |
| Geometry.AddCommutative | src/lib.rs:16-21 | point addition is commutative |
| Geometry.AddAssociative | src/lib.rs:16-21 | point addition is associative |
| Geometry.IsInsideUsesAbsoluteBounds | src/lib.rs:48-50 | is_inside compares against width and height themselves, so a rectangle whose corner is off the origin rejects a point at x == width even though it lies within x + width |
| Day01.FindSpace | src/day01/main.rs:16 | the index found is the first space at or after the start, and None means there is no space |
| Day01.RFindSpace | src/day01/main.rs:17 | the index found is the last space, and None means there is no space |
| Day01.ParsePairText | src/day01/main.rs:14-19 | reading a line made of two i64 numbers separated by one or more spaces gives back the two numbers |
| Day01.ParseLine | src/day01/main.rs:15-19 | a line parses only when it holds a space |
| Day01.Columns | src/day01/main.rs:10-23 | the columns read from the first n lines hold n entries each |
| Day01.ColumnsMeaning | src/day01/main.rs:14-22 | entry k of each column comes from line k, in order |
| Day01.ColumnsNone | src/day01/main.rs:15-19 | once a line fails to parse, the reading fails whatever follows |
| Day01.ReadColumns | src/day01/main.rs:14-22 | the reading loop pushes the two numbers of each line, giving exactly the columns of all lines, or None when a line panics |
| Day01.InsertPermutes | src/day01/main.rs:25-26 | inserting adds exactly that one element |
| Day01.SortPermutes | src/day01/main.rs:25-26 | sorting keeps the same multiset of elements |
| Day01.InsertSorted | src/day01/main.rs:25-26 | inserting into a sorted list keeps it sorted |
| Day01.SortSorted | src/day01/main.rs:25-26 | the sorted list is ordered and has the input's length |
| Day01.SortedUnique | src/day01/main.rs:25-26 | two sorted lists with the same elements are equal |
| Day01.SortOrderFree | src/day01/main.rs:25-26 | lists with the same elements sort to the same list |
| Day01.Distance | src/day01/main.rs:28-31 | the distance loop sums the gaps of the zipped pairs, up to the shorter column |
| Day01.ZipDistanceSymmetric | src/day01/main.rs:29-31 | swapping the columns does not change the distance |
| Day01.ZipDistanceSelf | src/day01/main.rs:29-31 | a column paired with itself is at distance 0 |
| Day01.TotalDistanceOrderFree | src/day01/main.rs:25-31 | the total distance depends only on which ids each column holds, not on the order of the lines |
| Day01.TotalDistanceSame | src/day01/main.rs:25-31 | columns holding the same ids are at distance 0 |
| Day01.Occurrences | src/day01/main.rs:37 | the count is the number of occurrences of the id in the right column |
| Day01.SimilarityConcat | src/day01/main.rs:35-39 | the similarity of concatenated left columns is the sum of their similarities |
| Day01.SimilarityRemove | src/day01/main.rs:35-39 | taking one left id out subtracts exactly its score |
| Day01.SimilarityOrderFree | src/day01/main.rs:35-39 | the similarity does not depend on the order of the left column |
| Day01.SimilarityIgnoresOrder | src/day01/main.rs:37 | the similarity does not depend on the order of the right column either |
| Day01.SimilarityOf | src/day01/main.rs:35-39 | the similarity loop adds, for each left id, the id times its occurrences on the right |
| Day01.Parts | src/day01/main.rs:25-41 | part 1 is the non-negative total distance of the sorted columns and part 2 is the similarity |
| Day01.Answers | src/day01/main.rs:5-46 | main gives answers exactly when every line parses, and then they are the distance and the similarity of the columns read |
| Day01.SortExampleLeft | src/day01/main.rs:25 | the left sample column 3 4 2 1 3 3 sorts to 1 2 3 3 3 4 |
| Day01.SortExampleRight | src/day01/main.rs:26 | the right sample column sorts to 3 3 3 4 5 9 |
| Day01.ExampleDistance | src/day01/main.rs:28-32 | the sample columns are 11 apart |
| Day01.ExampleCounts | src/day01/main.rs:37 | in the right sample column, 3 occurs three times, 4 once, and 2 and 1 not at all |
| Day01.ExampleSimilarity | src/day01/main.rs:35-41 | the sample's similarity score is 31 |
| Day02.ShortSafe | src/day02/main.rs:5-24 | a report of at most one level is safe |
| Day02.SafeExtend | src/day02/main.rs:9-19 | a safe prefix stays safe when the next gap is 1 to 3 and does not reverse the direction |
| Day02.UnsafePrefix | src/day02/main.rs:5-24 | a report with an unsafe prefix is unsafe |
| Day02.Check | src/day02/main.rs:5-24 | check returns None exactly for a safe report, and otherwise the first index whose level breaks the rule: the prefix before it is safe and the prefix through it is not |
| Day02.Removed | src/day02/main.rs:54-55 | removing index i keeps the levels before i and shifts the later ones down by one |
| Day02.FirstFix | src/day02/main.rs:53-60 | the fixing loop finds the first index whose removal makes the report safe, and finds none exactly when no single removal does |
| Day02.CountsBounded | src/day02/main.rs:45-62 | safe and fixable reports together number at most the reports |
| Day02.Tally | src/day02/main.rs:45-62 | the counting loop counts the safe reports, and the unsafe reports that one removal makes safe |
| Day02.ParseReports | src/day02/main.rs:31-43 | each report is the space-separated i64 numbers of its line, one report per line |
| Day02.AnswersOf | src/day02/main.rs:45-64 | part 1 is the number of safe reports and part 2 adds the fixable ones, when every number parses |
| Day02.Answers | src/day02/main.rs:26-69 | main answers exactly when every line parses, with the safe count and the safe-plus-fixable count |
| Day02.Examples | src/day02/main.rs:5-24 | on the puzzle's sample reports, 7 6 4 2 1 is safe, 1 2 7 8 9 is not, and 1 3 2 4 5 becomes safe once its second level is removed |
| Day03.ExtractGot | src/day03/main.rs:35-51 | a number extracted after "mul(" is one to three digits closed by the expected character, parses as an i64, is below 1000 and moves the index past the closing character |
| Day03.MulAtAdvances | src/day03/main.rs:33-56 | a multiplication found moves the index forward and has both factors below 1000; a miss resumes no earlier than after "mul(" |
| Day03.NextAdvances | src/day03/main.rs:31-67 | every command next yields moves the index strictly forward, within the data |
| Day03.DoDontAt | src/day03/main.rs:57-63 | at a position not starting "mul(", "do()" yields Do and moves 4 characters, else "don't()" yields Dont and moves 7 |
| Day03.Tokenizer.constructor | src/day03/main.rs:20-25 | a new tokenizer holds the data at index 0 |
| Day03.Tokenizer.ExtractChar | src/day03/main.rs:35-51 | the closure reads up to four characters: digits then the end character give the number and advance the index past it, anything else gives None and leaves the index |
| Day03.Tokenizer.TryMul | src/day03/main.rs:33-56 | after "mul(" both numbers are extracted; a found multiplication leaves the index after it, a miss leaves it where the extraction stopped, with no rollback |
| Day03.Tokenizer.Next | src/day03/main.rs:31-67 | next yields the command the scan from the old index finds and leaves the index after it, or reports the end of the data |
| Day03.Sum2AtMostSum1 | src/day03/main.rs:75-93 | the sum of enabled products is between 0 and the sum of all products |
| Day03.Sum2WithoutDont | src/day03/main.rs:77-91 | without a don't() every product stays enabled and both sums agree |
| Day03.Prepend | src/day03/main.rs:78 | commands seen before a complete scan are prefixed to the rest |
| Day03.Answers | src/day03/main.rs:70-99 | main's loop gives part 1, the sum of all products, and part 2, the sum of the products enabled by the last do()/don't() before them, with 0 <= part 2 <= part 1, unless the tokenizer panics |
| Day03.Example | src/day03/main.rs:33-56 | "mul(2,4)" yields 2 and 4 after 8 characters, "mul(12)" is a miss resuming at 7, and "mul(1" panics reading past the end |
| Day04.ReadGridShape | src/day04/main.rs:26-36 | the grid read has one row per line, every non-empty line has the first line's width, and the data holds at most width times height characters |
| Day04.ReadGridNone | src/day04/main.rs:31-33 | once a line of the wrong width panics, reading panics whatever follows |
| Day04.CheckChar | src/day04/main.rs:38-45 | check_char holds exactly when the cell lies inside the grid and within the data, and the data holds the character there |
| Day04.WordFrom | src/day04/main.rs:49-53 | the inner loop succeeds exactly when XMAS is spelled from the cell in that direction |
| Day04.CheckWord | src/day04/main.rs:46-57 | check_word counts the directions in which XMAS is spelled from the cell |
| Day04.DirCountBounds | src/day04/main.rs:46-57 | a cell starts at most eight words, and only an X cell starts any |
| Day04.WordEnds | src/day04/main.rs:49-53 | a word found ends with S three steps away in its direction |
| Day04.CheckMas | src/day04/main.rs:58-64 | check_mas holds only for a centre off the border holding A whose four diagonal neighbours lie inside the grid and hold two M and two S |
| Day04.MasInterior | src/day04/main.rs:58-64 | an X-MAS centre lies off the border |
| Day04.MasSymmetric | src/day04/main.rs:58-64 | check_mas holds exactly when the centre is A and each diagonal pair is M and S in either order, all inside the grid |
| Day04.PairIsMS | src/day04/main.rs:60-63 | a pair is M,S or S,M exactly when its multiset is {M, S} |
| Day04.Sweep | src/day04/main.rs:65-74 | the sweep over all cells gives the total XMAS count and X-MAS count, at most eight per cell and one per cell |
| Day04.RowBounds | src/day04/main.rs:68-73 | a row of n cells holds at most 8n words and n crossings |
| Day04.SweepBounds | src/day04/main.rs:67-74 | the first m rows hold at most 8 times width times m words and width times m crossings |
| Day04.Answers | src/day04/main.rs:18-82 | main answers exactly when the lines have a uniform width, with the word count and the crossing count of the grid read |
| Day05.AddRule | src/day05/main.rs:25-29 | adding a rule "a\|b" adds b to a's successors and changes no other entry |
| Day05.ParseLine | src/day05/main.rs:17-33 | a line is blank exactly when empty, and carries the rule and the page it would parse to |
| Day05.ReadLinesState | src/day05/main.rs:16-34 | after n lines the reader is still reading rules exactly when no blank line came yet, and the rule map is the fold of the rule lines read |
| Day05.RulesFromMeaning | src/day05/main.rs:19-29 | b is a successor of a in the rule map exactly when some rule line before the first blank line says "a\|b" |
| Day05.ReadLinesRules | src/day05/main.rs:11-35 | in the rules read from the whole input, a precedes b exactly when a rule line says so |
| Day05.ReadLinesNone | src/day05/main.rs:24-31 | once a line panics, reading the input panics |
| Day05.ReadOne | src/day05/main.rs:18-33 | the loop body handles one line as the reading fold says: the blank line switches to pages, a rule line adds a rule, a page line adds a page |
| Day05.Read | src/day05/main.rs:11-35 | the reading loop produces the rules and pages of the whole input, or None when a line panics |
| Day05.CheckPart1 | src/day05/main.rs:37-54 | check_part1 gives a value exactly for a non-empty page in which no page is preceded by one of its successors, and the value is the middle page |
| Day05.AnyPrinted | src/day05/main.rs:43-47 | the inner loop finds a successor already printed exactly when one exists |
| Day05.CheckPage | src/day05/main.rs:37-54 | the closure's loop computes check_part1's result |
| Day05.InsertAtSlot | src/day05/main.rs:59-68 | the insertion slot is the first position holding a successor of the page, and no page before it is a successor |
| Day05.InsertedPermutes | src/day05/main.rs:68 | inserting adds exactly that page |
| Day05.FixedPermutes | src/day05/main.rs:56-71 | fix_part2 reorders the page: the fixed page holds exactly its pages |
| Day05.FixedUnfold | src/day05/main.rs:58-69 | each step inserts the next page at its slot in the pages fixed so far |
| Day05.InsertAtSplits | src/day05/main.rs:59-68 | under a total order on the page, the slot splits the fixed pages into those that must come before and those that must come after |
| Day05.InsertChained | src/day05/main.rs:68 | inserting at such a split keeps every adjacent pair ordered by a rule |
| Day05.FixedChained | src/day05/main.rs:56-71 | under a total order, fix_part2 yields pages whose adjacent pairs are ordered by the rules |
| Day05.FixedPasses | src/day05/main.rs:80-84 | under a total order on a non-empty page, the fixed page passes check_part1, so the panic is not reached |
| Day05.FindSlot | src/day05/main.rs:59-67 | the rule loop finds the insertion slot: the least position of a successor, or the end |
| Day05.Position | src/day05/main.rs:63 | position gives the first index of the value, or None when it is absent |
| Day05.InsertAtIsFirst | src/day05/main.rs:59-67 | the slot is the first position holding a successor |
| Day05.FixPage | src/day05/main.rs:56-71 | the fix loop builds the fixed page |
| Day05.PageOutcome | src/day05/main.rs:77-85 | an ordered page gives its middle page, an unordered page its repaired middle page when the repair is ordered, and otherwise the panic |
| Day05.TotalFixable | src/day05/main.rs:80-84 | a non-empty page whose pages the rules order totally never panics |
| Day05.SumsStepSome | src/day05/main.rs:76-87 | a page that does not panic keeps the sums defined |
| Day05.SumsDefined | src/day05/main.rs:76-87 | when every page is totally ordered by the rules, the sums are defined |
| Day05.SumsNone | src/day05/main.rs:83 | once a page panics, the whole tally panics |
| Day05.Classify | src/day05/main.rs:77-85 | the match on check_part1 classifies the page as the outcome says |
| Day05.Accumulate | src/day05/main.rs:78-84 | the page's middle is added to part 1 or part 2 according to its outcome |
| Day05.Tally | src/day05/main.rs:73-87 | the tally loop gives the sums over all pages, or None when a page cannot be fixed |
| Day05.Answers | src/day05/main.rs:9-95 | main gives the sums of the rules and pages read, and nothing when reading panics |
| Day05.ExampleOrdered | src/day05/main.rs:37-54 | the sample page 75,47,61,53,29 is in order with middle 61 |
| Day05.ExampleRepair | src/day05/main.rs:56-71 | the sample page 75,97,47,61,53 is out of order, and its first two pages are fixed to 97,75 |
| Day06.TurnRotates | src/day06/main.rs:35-72 | turning right rotates the direction vector a quarter turn clockwise, and four turns come back to the same direction |
| Day06.StepMeaning | src/day06/main.rs:74-100 | one pass of simulate's loop records the cell; it leaves when the cell ahead is outside the bounds, reports a loop when an obstacle ahead was already hit in the same direction, turns and records the collision at a new obstacle, and otherwise steps forward |
| Day06.StepDir | src/day06/main.rs:70-72 | the direction stays among the four |
| Day06.RunVisits | src/day06/main.rs:73-102 | a run only adds visited cells and collisions, and every visited cell is inside the grid or the start |
| Day06.RunMoreFuel | src/day06/main.rs:73-102 | a run that ends with some fuel ends the same way with more |
| Day06.Simulation.constructor | src/day06/main.rs:59-69 | a new simulation stands at the start facing up, with nothing visited and no collision |
| Day06.Simulation.Turn | src/day06/main.rs:70-72 | turn advances the direction by one modulo 4 and changes nothing else |
| Day06.Simulation.Pass | src/day06/main.rs:75-100 | one pass of the loop leaves the state the step function gives, and reports leaving or looping when the step stops |
| Day06.Simulation.Simulate | src/day06/main.rs:73-102 | simulate ends with the run's outcome and final state, within the fuel given |
| Day06.GuardAt | src/day06/main.rs:124 | the position found is the first guard character of the line, or None when there is none |
| Day06.ReadGridShape | src/day06/main.rs:115-134 | the grid read from n lines is n rows of the first line's width, and the start, when found, is a guard cell of the grid |
| Day06.ReadRowShape | src/day06/main.rs:116-133 | reading one more line keeps the grid well formed |
| Day06.RowStart | src/day06/main.rs:124-131 | the start found in a line is the guard cell of that row |
| Day06.IndexInGrid | src/day06/main.rs:81 | a cell inside the bounds indexes the data within width times height |
| Day06.ReadStep | src/day06/main.rs:116-133 | the loop body reads one line as the reading fold says, panicking on a width change or a second guard |
| Day06.Parse | src/day06/main.rs:107-135 | the reading loop gives the grid of all lines, or None when it panics |
| Day06.ReadGridNone | src/day06/main.rs:121-126 | once reading panics, it panics whatever lines follow |
| Day06.Loops | src/day06/main.rs:152-176 | the cells counted by part 2 are among the visited cells |
| Day06.LoopCellFree | src/day06/main.rs:156-162 | an obstacle is only tried on a visited cell that is clear, so never on the guard's start |
| Day06.Part2 | src/day06/main.rs:152-176 | the trial loop counts, among the cells it is given (part 1's visited cells in `Day06.Answers`), those where an added obstacle makes the guard loop, and leaves the map as it found it |
| Day06.Walk | src/day06/main.rs:143-149 | part 1's walk, when it leaves within the budget, ends with a visited set that holds the start and otherwise only cells inside the map that are not obstacles |
| Day06.Answers | src/day06/main.rs:105-183 | main reads the map, walks the guard from its start until it leaves (a loop is the part 1 panic), answers part 1 with the number of visited cells, and part 2 with the number of those cells whose trial loops; each answer is missing exactly where the source panics |
| Day06.TryCell | src/day06/main.rs:155-175 | one trial puts an obstacle on a clear cell, simulates, and restores the cell: it reports a loop exactly as the run on the modified map does |
| Day07.ConcatSplits | src/day07/main.rs:61-72 | concatenating b after a can be undone: dividing by 10 to the number of b's digits gives a back and the remainder gives b |
| Day07.ConcatExamples | src/day07/main.rs:116-124 | concat(1,2) is 12, concat(1,0) is 10, concat(0,1) is 1, concat(10,10) is 1010 and concat(1234,1234) is 12341234, as the unit test expects |
| Day07.ConcatNumbers | src/day07/main.rs:61-72 | the concat loop shifts a left by as many decimal digits as b has (one for 0) and adds b |
| Day07.ApplyGrows | src/day07/main.rs:53-72 | with positive numbers, no operator makes the running value smaller |
| Day07.ReachIffChoice | src/day07/main.rs:32-43 | the target is reachable from position i exactly when some choice of the allowed operators, applied left to right, evaluates to it |
| Day07.ReachAbove | src/day07/main.rs:33-35 | with positive numbers, a running value above the target can never come back down to it |
| Day07.Rec | src/day07/main.rs:32-43 | rec never succeeds from a running value above the target; at the last number it succeeds exactly when the value is the target; with no operators it fails before the last number |
| Day07.Solve | src/day07/main.rs:45-50 | solve fails on an empty list and whenever the first number exceeds the target; a single number succeeds exactly when it is the target; with no operators a longer list fails |
| Day07.RecReach | src/day07/main.rs:32-43 | whenever rec succeeds, the target is reachable |
| Day07.PruningSound | src/day07/main.rs:32-43 | with positive numbers, rec's cut-off at a sum above the target loses nothing: rec succeeds exactly when the target is reachable |
| Day07.SolveSound | src/day07/main.rs:45-50 | whenever solve succeeds, some choice of operators gives the target |
| Day07.SolveCorrect | src/day07/main.rs:45-50 | with positive numbers, solve succeeds exactly when some choice of operators gives the target |
| Day07.RecMoreOps | src/day07/main.rs:32-43 | adding operators never turns a success into a failure |
| Day07.Part1InPart2 | src/day07/main.rs:85-104 | an equation solvable with + and * is solvable with concatenation added |
| Day07.ParseNumbers | src/day07/main.rs:18-25 | the numbers are exactly the i64 values of the space-separated parts, and None when any part fails |
| Day07.ParseSolver | src/day07/main.rs:15-30 | an equation parses only with at least two numbers |
| Day07.ParseNumbersWritten | src/day07/main.rs:18-22 | parsing numbers written in decimal gives them back |
| Day07.ParseFormat | src/day07/main.rs:15-78 | parsing an equation written as "target: n1 n2 ..." gives back the equation |
| Day07.ParseSolverOf | src/day07/main.rs:15-30 | a line split at ": " into a valid target and valid numbers parses to that equation |
| Day07.WrittenFree | src/day07/main.rs:15-22 | a number written in decimal holds no separator character |
| Day07.Equations | src/day07/main.rs:88-95 | the equations kept are at most one per line, lines that do not parse being skipped, each with at least two numbers |
| Day07.Totals | src/day07/main.rs:96-105 | part 1 sums the targets solvable with + and *, part 2 also those solvable only with concatenation |
| Day07.Part1AtMostPart2 | src/day07/main.rs:96-105 | with non-negative targets, part 1 is at most part 2 |
| Day07.Answers | src/day07/main.rs:79-110 | main's answers are the two totals over the equations of the input |
| Day08.AddNode | src/day08/main.rs:69-74 | recording an antenna appends its point to its frequency's list, creating the list when new, and leaves the other frequencies alone |
| Day08.ScanRowMeaning | src/day08/main.rs:65-76 | after scanning a row, a point is listed under a frequency exactly when it was before or it is a non-clear cell of that row holding that character |
| Day08.FrequenciesMeaning | src/day08/main.rs:63-77 | a point is listed under a frequency exactly when the map has that character at that point |
| Day08.ScanLine | src/day08/main.rs:65-76 | the inner loop records every non-clear cell of the line |
| Day08.ReadFrequencies | src/day08/main.rs:63-77 | the extraction loop builds the frequency map of the whole map |
| Day08.Convex | src/day08/main.rs:93-106 | if the start and the k-th point of a ray are inside the bounds, so is every point between |
| Day08.InsideBound | src/day08/main.rs:93-106 | a ray with a non-zero step leaves the bounds within a fixed number of steps, so `for i in 1..` ends |
| Day08.Ray | src/day08/main.rs:93-106 | one ray adds its first point to the part 1 antinodes when inside, and every inside point of the ray to the part 2 antinodes |
| Day08.RayComplete | src/day08/main.rs:93-106 | the points before the first one outside are all the inside points of the ray |
| Day08.Pair | src/day08/main.rs:87-107 | a pair of distinct antennas adds its two first antinodes for part 1, and both antennas with both rays for part 2 |
| Day08.RowSetMeaning | src/day08/main.rs:83-108 | an antinode comes from antenna i exactly when some other antenna of the frequency makes it with i |
| Day08.FreqSetMeaning | src/day08/main.rs:82-109 | a point is an antinode of a frequency exactly when some pair of its antennas makes it |
| Day08.FreqSetSound | src/day08/main.rs:82-109 | every antinode found comes from a pair of distinct antennas |
| Day08.FreqSetComplete | src/day08/main.rs:82-109 | every antinode of a pair of distinct antennas is found |
| Day08.ScanRowPairs | src/day08/main.rs:83-108 | the loop over b adds the antinodes of antenna a with every other antenna |
| Day08.Visit | src/day08/main.rs:84-107 | one pass of the loop over b: the same antenna twice adds nothing, two different antennas add that pair's antinodes to the row so far |
| Day08.ScanFrequency | src/day08/main.rs:82-109 | the loops over a and b add the antinodes of every pair of the frequency |
| Day08.Antinodes | src/day08/main.rs:79-110 | the antinode sets are those of all frequencies together |
| Day08.CollectStep | src/day08/main.rs:81 | the antinodes of one more frequency join the union |
| Day08.PairFacts | src/day08/main.rs:87-107 | a pair's part 1 antinodes are among its part 2 antinodes, and all lie inside the bounds |
| Day08.CollectFacts | src/day08/main.rs:79-113 | part 1's antinodes are among part 2's, and all lie inside the map |
| Day08.FrequenciesInside | src/day08/main.rs:49-77 | on a map of uniform width every antenna lies inside the bounds |
| Day08.Answers | src/day08/main.rs:38-119 | main answers exactly for a non-empty map of uniform width, with the numbers of part 1 and part 2 antinodes, part 1 at most part 2 |
| Day09.ChecksumMove | src/day09/main.rs:18-63 | moving a block from slot p to a free slot q changes the checksum by q times its id minus p times its id |
| Day09.Checksum | src/day09/main.rs:18-27 | the checksum is never negative, is zero on a disk with no used slot, and is at least position times id for every used slot |
| Day09.ComputeChecksum | src/day09/main.rs:18-27 | checksum sums position times file id over the used slots |
| Day09.MoveKeepsBlocks | src/day09/main.rs:62-63 | moving a block into a free slot keeps the disk's blocks |
| Day09.MovedStep | src/day09/main.rs:103-107 | moving one more block of a file writes it into the next free target slot and frees its source |
| Day09.MovedKeepsBlocks | src/day09/main.rs:103-107 | moving a whole file into free space keeps the disk's blocks |
| Day09.FirstRunFrom | src/day09/main.rs:70-94 | a run found is size free slots, all before the end |
| Day09.FirstRunLeftmost | src/day09/main.rs:70-94 | whenever a free run fits before the end, one is found no later than it |
| Day09.FirstRunIs | src/day09/main.rs:70-94 | the run found is the leftmost free run of that size |
| Day09.FirstRunNone | src/day09/main.rs:93 | with no free run of that size before the end, none is found |
| Day09.FirstRunSkip | src/day09/main.rs:78-84 | starting the search past slots that are all used finds the same run as starting at 0 |
| Day09.FirstRunNoEarlier | src/day09/main.rs:70-94 | no free run of that size starts before the one found |
| Day09.FindSpace | src/day09/main.rs:70-94 | find_space returns the leftmost free run of that size before the end, and moves find_start only across used slots |
| Day09.NoRunThroughUsed | src/day09/main.rs:79-84 | a used slot ends every run before it |
| Day09.NoRunShorterStreak | src/day09/main.rs:85-90 | a streak of free slots shorter than the size holds no run |
| Day09.DoneKeepsBlocks | src/day09/main.rs:99-111 | moving files from the last one down keeps the disk's blocks |
| Day09.CompactedKeepsBlocks | src/day09/main.rs:96-113 | part 2's compaction keeps the disk's blocks |
| Day09.StepMovesLeft | src/day09/main.rs:99-111 | a file either stays or moves whole into the leftmost free run that fits before it |
| Day09.MoveFile | src/day09/main.rs:103-107 | the copy loop moves the file's blocks into the free run and frees the old slots |
| Day09.Part2 | src/day09/main.rs:96-113 | part2 leaves the disk compacted file by file, last file first, and returns its checksum |
| Day09.UsedBelow | src/day09/main.rs:78-84 | every slot below find_start is used |
| Day09.Transfer | src/day09/main.rs:62-63 | one transfer moves the rear block into the free front slot and frees the rear, keeping the blocks |
| Day09.MoveRear | src/day09/main.rs:51-65 | moving the rear file keeps the blocks and advances the front, unless the source would panic |
| Day09.Part1 | src/day09/main.rs:41-68 | part1 keeps the disk's blocks and returns its checksum afterwards, and panics on an empty disk |
| Day09.Owner | src/day09/main.rs:138-142 | a slot belongs to a file that covers it, and to none when no file does |
| Day09.Layout | src/day09/main.rs:137 | the disk has the length computed from the last file |
| Day09.FilesShape | src/day09/main.rs:121-135 | the k-th file has id k, its digit as size, and the position reached by the digits before it |
| Day09.PositionGrows | src/day09/main.rs:129-133 | positions only grow along the map |
| Day09.FilesInOrder | src/day09/main.rs:121-137 | files lie in order without overlap and all fit on the disk |
| Day09.OwnerIs | src/day09/main.rs:138-142 | the slot of a file holds that file |
| Day09.FilesOf | src/day09/main.rs:121-136 | a non-empty map has a last file |
| Day09.DiskSlot | src/day09/main.rs:137-142 | every slot a file covers holds that file on the initial disk |
| Day09.DiskOfMap | src/day09/main.rs:136-142 | the initial disk holds every file in its slots, and every file fits |
| Day09.ReadMap | src/day09/main.rs:121-135 | the reading loop gives the files of the map exactly when every character is a digit |
| Day09.WriteDisk | src/day09/main.rs:137-142 | the disk is laid out with each file in its slots |
| Day09.Clone | src/day09/main.rs:144 | the clone is a fresh copy |
| Day09.Build | src/day09/main.rs:116-142 | the files and the initial disk of a non-empty digit map are built, and anything else panics |
| Day09.Answers | src/day09/main.rs:114-151 | for a valid map part 2 is the checksum of the compacted disk and a part 1 answer is the checksum of a rearrangement of the initial disk's blocks; for an invalid map there is no answer |
| Day10.HeightOf | src/day10/main.rs:44-47 | a digit gives its height 0 to 9, anything else the u8::MAX height |
| Day10.Row | src/day10/main.rs:42-49 | a row has one height per character of its line |
| Day10.MapOf | src/day10/main.rs:41-50 | the map has one row per line, each as long as its line |
| Day10.MapOfValid | src/day10/main.rs:44-47 | every height on the map is a digit or u8::MAX |
| Day10.ReadMap | src/day10/main.rs:41-50 | the reading loop builds the map of the lines |
| Day10.InsideInMap | src/day10/main.rs:27-28 | a target inside the bounds of a uniform map can be indexed |
| Day10.Walk | src/day10/main.rs:17-35 | every cell walk returns lies on the map at height 9, and from a height-9 cell walk returns just that cell |
| Day10.WalkIsEnds | src/day10/main.rs:17-35 | walk returns the last cell of each hiking trail from the cell, in order |
| Day10.WalkDirsIsEnds | src/day10/main.rs:25-33 | the direction loop collects the last cells of the trails through the first n directions |
| Day10.TrailsSound | src/day10/main.rs:17-35 | every trail enumerated starts at the cell and climbs by one per step to height 9 |
| Day10.TrailsDirsSound | src/day10/main.rs:25-33 | every trail through the first n directions is a trail from the cell |
| Day10.TrailHeight | src/day10/main.rs:29 | the i-th cell of a trail is i higher than its first |
| Day10.TrailFromEnd | src/day10/main.rs:20-24 | the only trail from a height-9 cell is the cell itself |
| Day10.TrailsComplete | src/day10/main.rs:17-35 | every hiking trail from the cell is enumerated |
| Day10.TrailsDirsComplete | src/day10/main.rs:25-33 | every trail whose first step is one of the first n directions is enumerated |
| Day10.TrailsDistinct | src/day10/main.rs:17-35 | no trail is enumerated twice |
| Day10.TrailsDirsDistinct | src/day10/main.rs:25-33 | the trails through the first n directions are distinct and each starts with one of those steps |
| Day10.WalkMeaning | src/day10/main.rs:17-35 | walk finds one end per distinct hiking trail from the cell: the trails are exactly the climbs by one to height 9, and each end found is a height-9 cell |
| Day10.DistinctlyBound | src/day10/main.rs:72-73 | the number of distinct ends is at most the number of trails |
| Day10.ColumnSumOrdered | src/day10/main.rs:65-78 | in one column, the ends counted are at most the trails counted |
| Day10.GridSumOrdered | src/day10/main.rs:64-79 | over the map, part 1 is at most part 2 |
| Day10.Score | src/day10/main.rs:62-79 | the sweep adds, over every trailhead, the number of distinct ends reached for part 1 and the number of trails for part 2 |
| Day10.Answers | src/day10/main.rs:37-85 | main answers exactly for a map of uniform width, with the two sums, part 1 at most part 2 |
| Day11.SplitDigits | src/day11/main.rs:15-30 | a value splits exactly when it has an even number of decimal digits |
| Day11.SplitRecombines | src/day11/main.rs:28-29 | the two halves put back together give the value: left times 10^(digits/2) plus right, with right below that power |
| Day11.SplitValue | src/day11/main.rs:15-30 | split_value's digit-counting loop computes the split |
| Day11.SplitExamples | src/day11/main.rs:147-153 | 123 does not split and 1234 splits into 12 and 34, as the unit test expects |
| Day11.Blink | src/day11/main.rs:33-47 | a stone becomes one or two stones with its count, two exactly when it is non-zero with an even number of digits |
| Day11.Added | src/day11/main.rs:48-55 | add_to adds the stone's count to its value's entry, creating the entry when new |
| Day11.AddedAllShort | src/day11/main.rs:36-46 | simulate adds the left half before the rest |
| Day11.AddedTotal | src/day11/main.rs:48-55 | add_to raises the total count by the stone's count |
| Day11.SimulateCounts | src/day11/main.rs:33-47 | simulate adds to each value the count of the stones the blink produces with it |
| Day11.SimulateKeys | src/day11/main.rs:33-47 | simulate adds exactly the values the blink produces |
| Day11.SimulateTotal | src/day11/main.rs:33-47 | simulate adds the stone's count once, or twice when it splits |
| Day11.BlinkStepKeys | src/day11/main.rs:83-85 | after each stone, the table's values are those produced by the stones done |
| Day11.BlinkStepCounts | src/day11/main.rs:83-85 | after each stone, each value's count is what the stones done produce of it |
| Day11.BlinkStepTotal | src/day11/main.rs:83-85 | after each stone, the total is the stones done plus their splits |
| Day11.StoneTable.constructor | src/day11/main.rs:57-82 | a new table is empty |
| Day11.StoneTable.AddTo | src/day11/main.rs:48-55 | add_to updates the table by adding the stone |
| Day11.StoneTable.Simulate | src/day11/main.rs:33-47 | simulate adds the stones of one blink of the stone to the table |
| Day11.BlinkedFrom | src/day11/main.rs:81-87 | a table with the produced values and counts is the blinked table |
| Day11.BlinkAll | src/day11/main.rs:82-86 | one round of blinking gives the blinked table, whose total is the old total plus the stones that split |
| Day11.BlinkNeverShrinks | src/day11/main.rs:33-47 | with non-negative counts, a blink never lowers the total |
| Day11.Count | src/day11/main.rs:67-73 | count sums the counts of the table |
| Day11.Numbers | src/day11/main.rs:58 | the numbers kept are at most the parts, the ones that do not parse being dropped |
| Day11.Ones | src/day11/main.rs:58-63 | each number read becomes a stone of count 1 |
| Day11.OnesCount | src/day11/main.rs:56-66 | after parsing, each value counts as many stones as it occurs in the input |
| Day11.Parse | src/day11/main.rs:56-66 | parse builds the table of the numbers read, each added with count 1 |
| Day11.ParsedCounts | src/day11/main.rs:56-66 | the parsed table is well keyed and counts each value as often as it occurs |
| Day11.ParseExample | src/day11/main.rs:106-126 | parsing "125 17" gives one stone of each, as the unit test expects |
| Day11.BlinkExample | src/day11/main.rs:127-146 | 125 becomes 253000 and 17 becomes 1 and 7, the first row the unit test expects |
| Day11.SecondBlinkExample | src/day11/main.rs:128-146 | the second blink of the simulate test turns 253000, 1 and 7 into 253 and 0, 2024, and 14168 |
| Day11.Iterate | src/day11/main.rs:81-96 | the table after rounds of blinking is well keyed |
| Day11.Solve | src/day11/main.rs:76-101 | part 1 is the number of stones after 25 blinks and part 2 after 75 |
| Day12.NeighbourIsDirection | src/day12/main.rs:13-18 | a point is at distance 1 exactly when it is one of the four DIRECTIONS away |
| Day12.StepDistance | src/day12/main.rs:90-92 | each step of rec_map_area reaches a neighbour, so the fence it may record passes Fence::new's check |
| Day12.Opposite | src/day12/main.rs:13-18 | DIRECTIONS[d] and DIRECTIONS[d + 2] cancel out |
| Day12.FloodingDone | src/day12/main.rs:90-93 | after the four directions, every plot newly visited has each neighbour either visited or fenced off |
| Day12.UnionMember | src/day12/main.rs:101-130 | a plot belongs to the recorded regions exactly when it belongs to one of them |
| Day12.FloodedFences | src/day12/main.rs:77-99 | the fences of a flooded region are exactly the unit steps from inside it to outside it |
| Day12.NewRegion | src/day12/main.rs:105-126 | the flood from an unused plot gives an area whose size is its plot count and whose plots are closed, unused and all of its letter |
| Day12.DisjointAppend | src/day12/main.rs:115-120 | the new region does not overlap the ones recorded before |
| Day12.TotalAreaAppend | src/day12/main.rs:126 | pushing an area adds its size to the total |
| Day12.UnionIsCells | src/day12/main.rs:103-104 | when each cell of the bounds is in some region, the regions cover exactly the bounds |
| Day12.CellsCount | src/day12/main.rs:64-69 | the bounds hold width times height cells |
| Day12.LeftCovered | src/day12/main.rs:115-120 | a cell cleared to None belongs to a recorded region |
| Day12.ClearTracks | src/day12/main.rs:116-120 | clearing the visited plots keeps the map in step with the regions recorded |
| Day12.Recorded | src/day12/main.rs:105-126 | recording a flooded region keeps the building invariant, with the region added |
| Day12.Garden.constructor | src/day12/main.rs:59-75 | parse wraps each character in Some, with bounds the first row's width and the number of rows, and no areas |
| Day12.Garden.MapArea | src/day12/main.rs:77-99 | rec_map_area counts the plots it newly visits, each visited one being a plot of the letter with its neighbours visited or fenced, and fences a step out of the region from prev |
| Day12.Garden.FloodAround | src/day12/main.rs:86-93 | from an unvisited plot, the flood visits it and surrounds each new plot |
| Day12.Garden.BuildAreas | src/day12/main.rs:101-130 | build_areas splits the map into disjoint closed regions of one letter each, covering the bounds, whose sizes add up to width times height |
| Day12.Garden.Visit | src/day12/main.rs:104-127 | each cell of the scan ends up in a recorded region |
| Day12.Garden.AddArea | src/day12/main.rs:115-126 | clearing the visited plots and pushing the area keeps the building invariant |
| Day12.ShiftMeaning | src/day12/main.rs:146-166 | the neighbour i steps along a fence is again a unit fence, i steps away along the run |
| Day12.ShiftShift | src/day12/main.rs:155-166 | a shifted fence runs the same way, and two shifts add up |
| Day12.ShiftInjective | src/day12/main.rs:155-166 | different numbers of steps along a side give different fences |
| Day12.ReachBack | src/day12/main.rs:155-172 | a union of whole sides that holds a fence of an unbroken stretch holds every fence of it |
| Day12.RunAdded | src/day12/main.rs:143-172 | adding the maximal run through a fence outside a union of whole sides gives a union of whole sides with exactly one more run start |
| Day12.MarksNext | src/day12/main.rs:156-171 | one more step marks one more fence, new among those marked |
| Day12.ExtendStep | src/day12/main.rs:156-171 | finding the next fence keeps the marked fences in the area and counts them |
| Day12.MarksMeaning | src/day12/main.rs:156-171 | the fences marked before the first missing one are in the area and include every fence of the unbroken stretch |
| Day12.Extend | src/day12/main.rs:155-172 | the scan in one direction marks exactly the fences 1, 2, … steps along the side up to the first one missing from the area |
| Day12.WalksAreRun | src/day12/main.rs:155-172 | the fences both scans mark, with the starting fence, are its maximal run |
| Day12.MarkSide | src/day12/main.rs:144-173 | processing an unused fence marks the rest of its maximal straight run, whose both ends are missing from the area |
| Day12.NewSide | src/day12/main.rs:143-173 | a fence not yet used starts a new side: the used and passed fences stay a union of whole sides and gain exactly one run start |
| Day12.RunFences | src/day12/main.rs:155-172 | the fences found by both scans, with the starting fence, are all in the area |
| Day12.UsedDone | src/day12/main.rs:143-144 | passing over a used fence changes nothing |
| Day12.AllDone | src/day12/main.rs:143 | once every fence is passed, the fences seen hold every run start |
| Day12.Sides | src/day12/main.rs:139-176 | the number of sides is the number of maximal straight runs of fences (fences whose predecessor along the side is missing), whatever order the set is walked in; at most the number of fences, and at least one when there are fences |
| Day12.Part1 | src/day12/main.rs:132-136 | get_part1 is at least each area's size times its fence count, and zero when no area has a fence |
| Day12.Part2 | src/day12/main.rs:138-179 | the bulk price is the sum of area × number of maximal straight runs, and never exceeds the part 1 price |
| Day12.FencesAreSteps | src/day12/main.rs:49-56 | each recorded fence joins neighbours, so part 2's Fence::new checks never fail |
| Day12.Answers | src/day12/main.rs:181-192 | an answer exists exactly when the input has rows as wide as the first; then the areas of build_areas are disjoint regions of the parsed map covering its cells, part 1 is their fence price and part 2 their bulk price, at most part 1 |
| Day12.PlotsOf | src/day12/main.rs:60-63 | the parsed map has one row per line, each character wrapped in Some |
| Day12.Clear | src/day12/main.rs:116-120 | the loop sets to None exactly the visited cells holding the letter |
| Day12.Letters | src/day12/main.rs:62 | each character of a line becomes Some of it |
| Day13.KeepDigits | src/day13/main.rs:35-37 | the digits of a part are kept in order and everything else is dropped |
| Day13.DigitFold | src/day13/main.rs:34-39 | the fold gives the decimal value of the digits kept |
| Day13.DigitFoldSkips | src/day13/main.rs:35-38 | a prefix without digits, such as " X+", does not change the value read |
| Day13.NoDigitsFold | src/day13/main.rs:38 | a part without digits reads as 0 |
| Day13.IntPair | src/day13/main.rs:29-45 | parse_int_pair gives a point exactly when the value has two comma-separated parts, and its coordinates are non-negative |
| Day13.LineOf | src/day13/main.rs:46-52 | a line counts only when it has one colon and a known label, and then carries the pair of its value |
| Day13.LineOfFormat | src/day13/main.rs:46-50 | a label, a colon and a value without colons is read as that label's pair |
| Day13.CoordinateFormat | src/day13/main.rs:34-39 | " X+" or " Y+" followed by a number reads back as that number |
| Day13.IntPairFormat | src/day13/main.rs:29-45 | " X+x, Y+y" reads back as the point (x, y) |
| Day13.Step | src/day13/main.rs:47-52 | a labelled line sets its slot and keeps the others; any other line changes nothing |
| Day13.Finish | src/day13/main.rs:54-61 | a machine results exactly when all three slots were set |
| Day13.ScanLast | src/day13/main.rs:28-53 | after the loop, each slot holds the pair of the last line with its label, or None when no line has it |
| Day13.LastValueUnique | src/day13/main.rs:28-53 | the last value of a label is well defined |
| Day13.Classified | src/day13/main.rs:28 | each line of the block is classified on its own |
| Day13.MachineOfMeaning | src/day13/main.rs:23-62 | parse gives a machine exactly when the last A, B and Prize lines carry its three points |
| Day13.ParseMachine | src/day13/main.rs:23-62 | the loop over the lines gives the machine MachineOf describes |
| Day13.Cramer | src/day13/main.rs:71-81 | the rule divides by zero exactly when the determinant is zero or delta_a.x is zero with the first division exact |
| Day13.EliminateX | src/day13/main.rs:71-76 | any solution's y times the determinant is the top of the first division |
| Day13.BackSubstitute | src/day13/main.rs:77-81 | x from the first equation also solves the second |
| Day13.CramerSound | src/day13/main.rs:71-81 | the counts the rule gives solve both equations |
| Day13.CramerComplete | src/day13/main.rs:71-81 | with non-zero divisors, any solution is the one the rule gives |
| Day13.SolutionUnique | src/day13/main.rs:71-81 | with non-zero divisors, the equations have at most one solution |
| Day13.SolveP1 | src/day13/main.rs:64-86 | a payout is 3 per A press plus 1 per B press of counts at most 100 that win the prize |
| Day13.SolveP1Complete | src/day13/main.rs:64-86 | every winning pair of counts at most 100 is paid at its cost |
| Day13.SolveP1NegativePresses | src/day13/main.rs:82-85 | the as-written guard pays 8 tokens for a machine no non-negative counts can win |
| Day13.SolveP1Checked | src/day13/main.rs:64-86 | with counts checked to be between 0 and 100, a payout is between 0 and 400 |
| Day13.SolveP1CheckedMeaning | src/day13/main.rs:64-86 | the checked solver pays t exactly when counts between 0 and 100 win the prize at cost t |
| Day13.SolveP1CheckedAgrees | src/day13/main.rs:82-85 | the checked solver differs from the as-written one only by refusing a negative count |
| Day13.SolveP2 | src/day13/main.rs:88-108 | a payout is the cost of counts winning the prize moved by 10000000000000 |
| Day13.SolveP2Complete | src/day13/main.rs:88-108 | every winning pair for the moved prize is paid at its cost |
| Day13.SolveP2NegativePresses | src/day13/main.rs:106-107 | the as-written solver pays for a moved prize no non-negative counts can win |
| Day13.SolveP2Checked | src/day13/main.rs:88-108 | with counts checked to be non-negative, a payout is non-negative |
| Day13.SolveP2CheckedMeaning | src/day13/main.rs:88-108 | the checked solver pays t exactly when non-negative counts win the moved prize at cost t |
| Day13.CrlfToLf | src/day13/main.rs:112 | removing carriage returns never lengthens the input and leaves one without them alone |
| Day13.Somes | src/day13/main.rs:116-118 | flatten keeps exactly the machines that parsed |
| Day13.TotalPanics | src/day13/main.rs:119-133 | the sum is missing exactly when some solver panics on a zero divisor |
| Day13.TotalBounds | src/day13/main.rs:119-125 | outcomes each at most cap add up to at most cap per machine |
| Day13.TotalAtMost | src/day13/main.rs:119-125 | outcomes each at most cap add up to at most cap per machine, whatever their sign |
| Day13.Part1Outcomes | src/day13/main.rs:119-122 | part 1 runs the as-written solve_p1 on each machine, in order |
| Day13.Part2Outcomes | src/day13/main.rs:127-130 | part 2 runs the as-written solve_p2 on each machine, in order |
| Day13.Answers | src/day13/main.rs:110-133 | each total of main is missing exactly when some machine's solver panics; part 1 is at most 400 per machine |
| Day13.Part1Negative | src/day13/main.rs:119-125 | the as-written part 1 total of A=(2,1) B=(3,3) prize (1,2) is -2 |
| Day13.CheckedPart1Outcomes | src/day13/main.rs:82-85 | the intended part 1 runs the checked solver on each machine, in order |
| Day13.CheckedPart2Outcomes | src/day13/main.rs:106-107 | the intended part 2 runs the checked solver on each machine, in order |
| Day13.Part1Bound | src/day13/main.rs:82-85 | with the checked solver the part 1 total is between 0 and 400 per machine |
| Day13.TotalNonNegative | src/day13/main.rs:119-133 | outcomes paying no negative amount add up to a non-negative total |
| Day13.CheckedAnswers | src/day13/main.rs:110-133 | the intended totals are missing exactly when a checked solver panics; part 1 is between 0 and 400 per machine and part 2 is non-negative |
| Day13.FindingTotals | src/day13/main.rs:82-85 | on the finding's machine main's part 1 adds 8 tokens and the checked solver adds none |
| Day13.ExampleSolveP1 | src/day13/main.rs:146-173 | on the example, machines one and three cost 280 and 200 tokens and the others have no prize |
| Day13.ExamplePart1 | src/day13/main.rs:168-173 | the example's part 1 total is 480 |
| Day13.ExampleSolveP2 | src/day13/main.rs:174-179 | on the example's moved prizes, only machines two and four can be won |
| Day13.ExamplePart2 | src/day13/main.rs:174-179 | the example's part 2 total is 875318608908 |
| Day14.TailLength | src/day14/main.rs:39 | the trailing run of digits and '-' is no longer than the text |
| Day14.NumberTailMeaning | src/day14/main.rs:39-42 | the number text is the longest suffix of digits and '-', preceded by a character that is neither |
| Day14.TailRun | src/day14/main.rs:39-42 | the characters counted from the end are all digits or '-', and the one before them is not |
| Day14.TailAfter | src/day14/main.rs:39-42 | a tag ending in a non-numeric character is cut off from the number after it |
| Day14.ValuesFrom | src/day14/main.rs:38-46 | filter_map keeps at most one value per part, each the parse of some part's number text |
| Day14.RobotOf | src/day14/main.rs:32-67 | a robot results only from a line of two space-separated parts whose points are its position and velocity |
| Day14.NoSeparator | src/day14/main.rs:35-52 | a written coordinate holds no comma and no space |
| Day14.TailSuffix | src/day14/main.rs:39-42 | the number text of a tag followed by a number is that number |
| Day14.TailOfText | src/day14/main.rs:39-42 | the number text of "p=", "v=" or nothing followed by an integer is that integer |
| Day14.SplitPoint | src/day14/main.rs:34-36 | a written point splits at its comma into its two coordinates |
| Day14.TwoValues | src/day14/main.rs:34-48 | two parsable parts give the two values, in order |
| Day14.CoordinateFormat | src/day14/main.rs:38-45 | an i64 written after its tag parses back to itself |
| Day14.PointNoSpace | src/day14/main.rs:52 | a written point holds no space |
| Day14.PointFormat | src/day14/main.rs:33-51 | parse_point reads a written point with i64 coordinates back |
| Day14.RobotFormat | src/day14/main.rs:32-67 | Robot::parse reads the line "p=x,y v=dx,dy" of a robot with i64 coordinates back as that robot |
| Day14.ExampleText | src/day14/main.rs:158-159 | the test robot is written as "p=56,68 v=1,-12" |
| Day14.ExampleParse | src/day14/main.rs:157-174 | the test line parses to position (56, 68) and velocity (1, -12) |
| Day14.RobotsOf | src/day14/main.rs:82-87 | flatten keeps at most one robot per line |
| Day14.Position | src/day14/main.rs:69-75 | get_position wraps each coordinate with rem_euclid into the bounds |
| Day14.PositionInside | src/day14/main.rs:69-75 | with positive bounds at the origin, the wrapped position is inside the rectangle |
| Day14.ModAbs | src/day14/main.rs:72-73 | rem_euclid by a negative width equals rem_euclid by its absolute value |
| Day14.ModShift | src/day14/main.rs:72-73 | adding a multiple of the width does not change the wrapped coordinate |
| Day14.WrapPeriodic | src/day14/main.rs:70-73 | a coordinate repeats when the time moves by a multiple of the width |
| Day14.PositionPeriodic | src/day14/main.rs:69-75 | every robot is back where it was after width times height seconds |
| Day14.WrapCompose | src/day14/main.rs:70-73 | wrapping after s seconds and moving t more equals moving s + t |
| Day14.PositionCompose | src/day14/main.rs:69-75 | s seconds and then t seconds put a robot where s + t seconds do |
| Day14.Positions | src/day14/main.rs:91-95 | part1 takes each robot's position after the given time, in order |
| Day14.Part1 | src/day14/main.rs:90-103 | the safety factor is between 0 and the number of robots to the fourth power, since each quadrant count is at most the number of robots |
| Day14.QuadrantsDisjoint | src/day14/main.rs:96-100 | no point is in two quadrants |
| Day14.Count | src/day14/main.rs:100 | a quadrant holds at most as many robots as there are |
| Day14.OccupiedBound | src/day14/main.rs:96-101 | the robots counted across the four quadrants are at most all of them |
| Day14.Part1Zero | src/day14/main.rs:90-103 | the safety factor is zero exactly when some quadrant is empty |
| Day14.Neighbours | src/day14/main.rs:112-122 | a robot has at most four occupied neighbours |
| Day14.Clustered | src/day14/main.rs:115-124 | the robots with two neighbours are among the occupied cells |
| Day14.Part2 | src/day14/main.rs:104-131 | the answer is the first second below 100000 at which more than half the occupied cells have two occupied neighbours, or -1 when there is none |
| Day14.TreePeriodic | src/day14/main.rs:104-131 | the occupied cells, and so the test, repeat every width times height seconds |
| Day14.LoneRobot | src/day14/main.rs:115-126 | a single robot never passes the test |
| Day14.SamplePositions | src/day14/main.rs:176-203 | the sample robots' positions after 100 seconds |
| Day14.SampleCount0 | src/day14/main.rs:96-101 | the sample's first quadrant holds 1 robot |
| Day14.SampleCount1 | src/day14/main.rs:96-101 | the sample's second quadrant holds 3 robots |
| Day14.SampleCount2 | src/day14/main.rs:96-101 | the sample's third quadrant holds 4 robots |
| Day14.SampleCount3 | src/day14/main.rs:96-101 | the sample's fourth quadrant holds 1 robot |
| Day14.SamplePart1 | src/day14/main.rs:176-203 | the sample's safety factor is 12 |
| Day16.AheadInside | src/day16/main.rs:138-139 | in a maze walled all round, the cell ahead of an open cell is on the level and differs from it |
| Day16.ScorePrefix | src/day16/main.rs:147-161 | scores only grow along a walk, since every move costs 1 or 1000 |
| Day16.LeadsPrefix | src/day16/main.rs:128-177 | every prefix of a route is a route to its last pose, at no more than the whole score |
| Day16.LeadsExtend | src/day16/main.rs:138-175 | one more move extends a route, adding the move's cost and its cell |
| Day16.ScoreStrict | src/day16/main.rs:147-161 | a proper prefix of a walk scores less than the walk, since every move costs at least 1 |
| Day16.RouteSuffix | src/day16/main.rs:138-175 | the poses of a route from any point on form a route |
| Day16.Splice | src/day16/main.rs:138-175 | a route joined to one starting where it ends is a route, scoring the two added up |
| Day16.SpliceFinishes | src/day16/main.rs:128-177 | replacing the beginning of a route to the end by another route to the same pose gives a route to the end, scoring by the difference |
| Day16.BestEndsOnce | src/day16/main.rs:129-132 | a lowest-scoring route reaches the end cell only at its last pose |
| Day16.RouteItemStart | src/day16/main.rs:119-127 | the start item is the item of every route at its first pose |
| Day16.RouteItemNext | src/day16/main.rs:138-175 | the item of one more pose of a route adds the move's cost and the cell moved to |
| Day16.Frontier | src/day16/main.rs:128-177 | any route to an unvisited pose passes a queued item that scores no more than the route |
| Day16.FrontierEdge | src/day16/main.rs:128-177 | a route leaving the visited poses meets a queued item no costlier than the route |
| Day16.Exhausted | src/day16/main.rs:128-177 | when the queue is empty the solution is the lowest score, or None when the end cannot be reached, and the path holds exactly the cells of the best routes |
| Day16.WeighRemove | src/day16/main.rs:128 | popping an item removes its weight from the queue's measure |
| Day16.WeighAdd | src/day16/main.rs:116 | pushing an item adds its weight to the queue's measure |
| Day16.WeighKept | src/day16/main.rs:102-117 | queue_item adds an item's weight only when it pushes the item |
| Day16.SolveStart | src/day16/main.rs:119-127 | the queue holding only the start item, facing east, satisfies the search invariant |
| Day16.EndLowest | src/day16/main.rs:129-132 | the first item popped at the end has the lowest score, and its path lies on best routes |
| Day16.EndCells | src/day16/main.rs:129-132 | the path of an item popped at the end lies on routes of its score |
| Day16.EndPop | src/day16/main.rs:129-132 | popping an end item and recording it keeps the search invariant |
| Day16.EndHandles | src/day16/main.rs:129-132 | popping an end item keeps every edge out of a visited pose handled |
| Day16.EndStarted | src/day16/main.rs:129-132 | popping an end item keeps the start handled |
| Day16.CompleteEnd | src/day16/main.rs:93-100 | popping the end item of a best route at the lowest score adds all of that route's cells to the path |
| Day16.RouteUnvisited | src/day16/main.rs:102-117 | the pose after a prefix of a best route is not yet visited when that prefix's item is popped, or a cheaper route would exist |
| Day16.RouteStep | src/day16/main.rs:128-175 | popping the item of a best route's prefix queues the item of the next prefix |
| Day16.RouteItemKept | src/day16/main.rs:102-106 | no prefix of a best route scores above the solution, so queue_item never drops it for its score |
| Day16.CompleteVisit | src/day16/main.rs:128-175 | visiting a popped item keeps every best route gathered or with a prefix queued |
| Day16.ExpansionAbove | src/day16/main.rs:137-175 | every item a popped item queues scores more than it |
| Day16.MonotoneVisit | src/day16/main.rs:128-175 | visiting the lowest-scoring item keeps every visited cost at most every queued score |
| Day16.Visit | src/day16/main.rs:134 | visiting an item adds its pose to the visited poses |
| Day16.VisitFound | src/day16/main.rs:133-135 | the pose of the cheapest popped item is reached at its lowest score |
| Day16.StepTraced | src/day16/main.rs:138-175 | an item moved by one step or turn carries a route to its pose with the new cell in its path |
| Day16.KeptQueued | src/day16/main.rs:102-117 | an item queue_item keeps carries a route of its score |
| Day16.ExpansionQueued | src/day16/main.rs:137-175 | the forward item and both turns carry routes of their scores |
| Day16.ExpansionHandles | src/day16/main.rs:137-175 | after the expansion, each edge out of the visited pose is handled |
| Day16.KeptHandles | src/day16/main.rs:102-117 | an item queue_item drops is one already visited or costlier than the solution |
| Day16.PopHandles | src/day16/main.rs:128-175 | visiting an item keeps the edges of the earlier visited poses handled |
| Day16.VisitPop | src/day16/main.rs:133-175 | visiting and expanding a popped item keeps the search invariant |
| Day16.VisitStarted | src/day16/main.rs:133-175 | visiting an item keeps the start handled |
| Day16.InUniverse | src/day16/main.rs:13-18 | every open cell facing one of the four directions is among the level's poses |
| Day16.NewProgress | src/day16/main.rs:134 | visiting a new pose shrinks what is left to visit |
| Day16.WeighTurn | src/day16/main.rs:156-175 | the turn items do not add to the queue's measure |
| Day16.WeighForward | src/day16/main.rs:138-155 | the forward item adds at most one to the queue's measure |
| Day16.StaleProgress | src/day16/main.rs:128-175 | expanding an already visited pose lowers the queue's measure |
| Day16.FoundInUniverse | src/day16/main.rs:134 | the visited poses are among the level's poses |
| Day16.EndProgress | src/day16/main.rs:129-132 | popping an end item lowers the queue's measure |
| Day16.VisitProgress | src/day16/main.rs:128-175 | each visit either adds a new pose or lowers the queue's measure, so the loop ends |
| Day16.Maze.constructor | src/day16/main.rs:80-89 | a new maze faces east and has no solution and an empty path |
| Day16.Maze.AddSolution | src/day16/main.rs:93-100 | the first end item sets the solution and its path; one of the same score adds its path; others change nothing |
| Day16.Maze.QueueItem | src/day16/main.rs:102-117 | an item is pushed exactly when its score does not exceed the solution and its pose is not visited |
| Day16.Maze.Expand | src/day16/main.rs:137-175 | the forward item, unless a wall is ahead, then both turns, are queued as queue_item decides |
| Day16.Maze.Advance | src/day16/main.rs:128-175 | one iteration keeps the search invariant and makes progress |
| Day16.Maze.Solve | src/day16/main.rs:119-178 | solve ends with the lowest score of a route from start to end, and the path is exactly the set of cells on routes with that score; with no route, no solution and an empty path |
| Day16.Maze.Part1 | src/day16/main.rs:217-219 | part1 is the lowest score, or None when no route reaches the end |
| Day16.Maze.Part2 | src/day16/main.rs:221-226 | part2 counts the cells of the path when there is a solution, and a cell is in the path exactly when it lies on a best route |
| Day16.Parse | src/day16/main.rs:58-91 | a maze results exactly when the text holds both S and E, placed at their first occurrences and facing east |
| Day17.AsUsize | src/day17/main.rs:77 | the `value as usize` cast keeps a non-negative operand and sends a negative one past any program's end |
| Day17.Combo | src/day17/main.rs:48-56 | a combo operand 0 to 3 is itself, 4 to 6 the registers A, B and C, and anything else panics |
| Day17.Run | src/day17/main.rs:101-116 | run halts exactly when the instruction pointer leaves the program, and only appends octal digits to the output |
| Day17.ExecOutput | src/day17/main.rs:87-91 | only out writes, and it appends one value between 0 and 7 |
| Day17.ExecPointer | src/day17/main.rs:58-100 | every valid opcode moves the pointer by 2, except jnz with A non-zero, which jumps to its operand |
| Day17.ExecRegisters | src/day17/main.rs:58-100 | only adv writes A, only bxl, bst, bxc and bdv write B, only cdv writes C, and bst leaves B between 0 and 7 |
| Day17.ShiftedShrinks | src/day17/main.rs:60 | dividing a non-negative A by a power of two gives a value between 0 and A |
| Day17.RunMoreFuel | src/day17/main.rs:101-116 | once a run halts, more steps change nothing |
| Day17.Machine.State | src/day17/main.rs:5-12 | the registers, pointer and output of the machine |
| Day17.Machine.constructor | src/day17/main.rs:35-44 | a parsed machine starts at pointer 0 with no output |
| Day17.Machine.Adv | src/day17/main.rs:58-61 | op_adv performs instruction 0, failing on an invalid combo operand |
| Day17.Machine.Bxl | src/day17/main.rs:63-67 | op_bxl performs instruction 1 |
| Day17.Machine.Bst | src/day17/main.rs:69-72 | op_bst performs instruction 2 |
| Day17.Machine.Jnz | src/day17/main.rs:73-79 | op_jnz performs instruction 3 |
| Day17.Machine.Bxc | src/day17/main.rs:81-85 | op_bxc performs instruction 4 |
| Day17.Machine.Out | src/day17/main.rs:87-91 | op_out performs instruction 5 |
| Day17.Machine.Bdv | src/day17/main.rs:93-96 | op_bdv performs instruction 6 |
| Day17.Machine.Cdv | src/day17/main.rs:97-100 | op_cdv performs instruction 7 |
| Day17.Machine.RunProgram | src/day17/main.rs:101-116 | the loop leaves the machine in the state the run reaches, and says whether it halted, panicked or ran out of steps |
| Day17.Machine.Reset | src/day17/main.rs:126-130 | a reset sets A to the candidate, clears B, C, the pointer and the output, and keeps the program |
| Day17.ProgramValues | src/day17/main.rs:25-31 | the program keeps at most one i32 per comma-separated part |
| Day17.ParseLine | src/day17/main.rs:21-33 | a line sets a register or extends the program, never shortening it |
| Day17.ParseUpTo | src/day17/main.rs:20-34 | the program read is made of i32 values |
| Day17.Parse | src/day17/main.rs:15-46 | a machine results exactly when all three registers were read, with the program gathered from the input |
| Day17.FindSelf | src/day17/main.rs:124-141 | a candidate is reported only when the program run from it halts printing the program itself |
| Day17.LoopPass | src/day17/main.rs:101-116 | one pass of adv k; out A; jnz 0 divides A and prints its low three bits before jumping back |
| Day17.LastPass | src/day17/main.rs:101-116 | the pass that leaves A at zero prints once more and halts |
| Day17.FirstExampleA | src/day17/main.rs:153-167 | the first example's first three passes print 4, 6, 3 |
| Day17.FirstExampleB | src/day17/main.rs:153-167 | the next three passes print 5, 6, 3 |
| Day17.FirstExampleC | src/day17/main.rs:153-167 | the next three passes print 5, 2, 1 |
| Day17.FirstExample | src/day17/main.rs:153-167 | from A = 729, the program 0,1,5,4,3,0 halts printing 4,6,3,5,6,3,5,2,1,0 |
| Day17.SecondExampleA | src/day17/main.rs:169-195 | from A = 117440, the first three passes print 0, 3, 5 |
| Day17.SecondExampleB | src/day17/main.rs:169-195 | the next two passes print 4, 3 |
| Day17.SecondExample | src/day17/main.rs:169-195 | from A = 117440, the program 0,3,5,4,3,0 halts printing itself |
| Day18.Numbers | src/day18/main.rs:70-74 | flatten keeps at most one i64 per comma-separated part |
| Day18.ParseFalling | src/day18/main.rs:67-81 | the falling bytes are the lines' points in order, and parsing fails exactly when some line does not give two numbers |
| Day18.PointRoundTrip | src/day18/main.rs:67-81 | a line "x,y" of two i64 values parses back to the point |
| Day18.FlattenSkips | src/day18/main.rs:70-76 | a part that is not a number is skipped, so "3,x,4" still gives (3, 4) |
| Day18.SampleSplit | src/day18/main.rs:71 | "3,x,4" splits into three parts |
| Day18.SampleNumbers | src/day18/main.rs:72 | "3" and "4" parse as i64 values and "x" does not |
| Day18.LevelAfter | src/day18/main.rs:63-90 | after n drops, a cell is corrupted exactly when one of the first n bytes fell on it |
| Day18.WalkPrefix | src/day18/main.rs:101-128 | a prefix of a walk is a walk |
| Day18.WalkDistance | src/day18/main.rs:14-19 | a walk of n steps ends within Manhattan distance n of the origin |
| Day18.ReachDistance | src/day18/main.rs:14-19 | a cell reached in n steps is within distance n of the origin |
| Day18.ReachStep | src/day18/main.rs:122-127 | from a reached clear cell, each neighbour is reached one step later |
| Day18.ReachInside | src/day18/main.rs:106-110 | an exit that can be reached is inside the bounds |
| Day18.Frontier | src/day18/main.rs:101-128 | a walk to an unsettled cell passes a queued item no costlier than the walk |
| Day18.FrontierReach | src/day18/main.rs:101-128 | a cell reached in n steps and not settled has a queued item of cost at most n |
| Day18.FoundExit | src/day18/main.rs:106-110 | the cheapest item popped at the exit gives the fewest steps to the exit |
| Day18.Exhausted | src/day18/main.rs:101-129 | when the queue runs empty, the exit cannot be reached |
| Day18.SkipOutside | src/day18/main.rs:102-104 | skipping an item outside the bounds keeps the search invariant |
| Day18.SkipStale | src/day18/main.rs:112-116 | skipping an item no cheaper than its cell's cost keeps the search invariant |
| Day18.RecordCells | src/day18/main.rs:112-113 | recording a cost settles that cell only and keeps the others' costs |
| Day18.RecordSettles | src/day18/main.rs:112-113 | the cell recorded was unsettled, its cost is its fewest steps and one more cell is settled |
| Day18.SettleQueued | src/day18/main.rs:118-127 | the items pushed from a settled cell are all reachable at their costs |
| Day18.SettleLowerBounds | src/day18/main.rs:112-113 | every settled cost stays the fewest steps to its cell |
| Day18.SettlePushed | src/day18/main.rs:118-127 | every neighbour of a settled clear cell is settled or queued no costlier than one more step |
| Day18.Settle | src/day18/main.rs:112-127 | settling an item and pushing its neighbours keeps the search invariant |
| Day18.NeighboursHold | src/day18/main.rs:122-127 | the four pushes include each neighbour at one more step |
| Day18.NeighboursMember | src/day18/main.rs:122-127 | every item pushed is a neighbour at one more step |
| Day18.SolveLevel | src/day18/main.rs:92-130 | solve returns the fewest steps from (0, 0) to the far corner, or None exactly when the corner cannot be reached |
| Day18.PopItem | src/day18/main.rs:101-128 | one iteration either finds the shortest distance or keeps the invariant while settling a cell or shrinking the queue |
| Day18.Improve | src/day18/main.rs:112-127 | a cheaper item settles its cell and pushes its four neighbours |
| Day18.PushNeighbours | src/day18/main.rs:122-127 | the loop pushes the four neighbours at one more step |
| Day18.SearchStart | src/day18/main.rs:93-99 | all costs at i64::MAX and (0, 0) queued at cost 0 satisfy the search invariant |
| Day18.DropLevel | src/day18/main.rs:86-90 | one drop marks the next falling byte corrupted |
| Day18.OpenBetweenExtend | src/day18/main.rs:173-183 | each drop that leaves the exit reachable extends the run of open levels |
| Day18.Solver.constructor | src/day18/main.rs:62-84 | parse makes an all-clear level, keeps the falling points read and starts at index 0 |
| Day18.Solver.Drop | src/day18/main.rs:86-90 | drop corrupts the next falling cell and advances the index; it fails exactly when no byte is left or the byte lies outside the level, where the indexing panics |
| Day18.Solver.Solve | src/day18/main.rs:92-130 | solve on the current level gives the fewest steps to the exit, or None when the fallen bytes block it |
| Day18.Solver.GetLastDropped | src/day18/main.rs:132-134 | the last dropped byte is the falling point before the index, and its cell is corrupted |
| Day18.Part1 | src/day18/main.rs:165-172 | after the drops, the answer is the fewest steps to the exit, or None when it is blocked; the drops fail exactly when one of the bytes is missing or outside the level |
| Day18.DropAndCheck | src/day18/main.rs:174-175 | dropping one more byte reports whether the exit is now blocked, or fails exactly when that byte cannot be dropped |
| Day18.Part2 | src/day18/main.rs:173-183 | the byte reported is the first whose fall blocks the exit; every level before it stays open; None means the next byte is missing or outside the level (the panic) with the exit still open |
| Day19.CountUpTo | src/day19/main.rs:38-55 | the arrangements found through the first n towels are never negative |
| Day19.Prefixed | src/day19/main.rs:46-50 | putting a towel in front of each arrangement of the rest keeps them in order |
| Day19.DecompsCount | src/day19/main.rs:38-55 | rec's count equals the number of arrangements listed for the design |
| Day19.DecompsSound | src/day19/main.rs:40-51 | every arrangement listed spells the design with the towels, starting with one of the first n |
| Day19.DecompsComplete | src/day19/main.rs:40-51 | every way of spelling the design with towels, starting with one of the first n, is listed |
| Day19.SpellNonEmpty | src/day19/main.rs:41-46 | with no empty towel, a non-empty arrangement spells a non-empty design |
| Day19.DecompsFirst | src/day19/main.rs:40 | the arrangements are grouped by their first towel, in towel order |
| Day19.PrefixedDistinct | src/day19/main.rs:46-50 | the same towel in front of distinct arrangements gives distinct arrangements |
| Day19.DecompsDistinct | src/day19/main.rs:38-55 | no arrangement is counted twice |
| Day19.GroupDistinct | src/day19/main.rs:41-50 | the arrangements starting with one towel are distinct and start with it |
| Day19.DistinctAppend | src/day19/main.rs:40-52 | groups with different first towels never overlap |
| Day19.CountIsDecompositions | src/day19/main.rs:38-55 | rec counts exactly the distinct ways of spelling the design as a sequence of towels |
| Day19.FirstEmpty | src/day19/main.rs:20-26 | towels are read up to the first empty line |
| Day19.TrimAll | src/day19/main.rs:28 | each towel is its part trimmed of spaces |
| Day19.DesignsBetween | src/day19/main.rs:29-33 | the designs are the non-empty lines after the blank one |
| Day19.ParsedShape | src/day19/main.rs:14-36 | towels hold no comma and are trimmed, and no design is empty |
| Day19.TowelsShape | src/day19/main.rs:27-28 | every towel read holds no comma and is already trimmed |
| Day19.TrimFacts | src/day19/main.rs:28 | trimming keeps only characters of the part and is idempotent |
| Day19.Counts | src/day19/main.rs:61-64 | solve records each design's count, in order |
| Day19.Positives | src/day19/main.rs:71-73 | the designs that can be made are at most all designs |
| Day19.PositivesAtMostTotal | src/day19/main.rs:67-81 | part1 never exceeds part2 |
| Day19.ReadLines | src/day19/main.rs:20-34 | the parse loop reads the towels before the blank line and the designs after it |
| Day19.Solver.Parse | src/day19/main.rs:14-36 | parse gives the towels and designs of the input and no solutions |
| Day19.Solver.Rec | src/day19/main.rs:38-55 | rec returns the design's count and memoises it, keeping every memo entry correct |
| Day19.Solver.Solve | src/day19/main.rs:57-65 | solve fills the solutions with each design's count once, and does nothing when they are already there |
| Day19.Solver.Part1 | src/day19/main.rs:67-74 | part1 panics before solve (no solutions), and otherwise is at most the number of designs |
| Day19.Solver.Part2 | src/day19/main.rs:76-81 | part2 panics before solve, and otherwise is at least part1 when no count is negative |
| Day19.Part1AtMostPart2 | src/day19/main.rs:67-81 | the number of makeable designs is at most the total number of arrangements |
| Day19.Answers | src/day19/main.rs:84-94 | main prints the makeable designs and the total arrangements, or panics when there are no solutions |
| Day20.Parse | src/day20/main.rs:57-98 | a race results exactly when the text holds both S and E, at their first occurrences, with bounds the first row's width and the number of rows; an empty input (the `level[0]` panic) gives None |
| Day20.StepInside | src/day20/main.rs:115-127 | on a walled track, a step from a track cell stays inside the bounds, so the indexing never fails |
| Day20.WalkPrefix | src/day20/main.rs:109-133 | a prefix of a walk is a walk |
| Day20.ReachStep | src/day20/main.rs:115-131 | from a reached cell, an open neighbour is reached one step later |
| Day20.ReachOpen | src/day20/main.rs:127 | every cell reached from a track cell is a track cell |
| Day20.Frontier | src/day20/main.rs:109-133 | a walk to an unsettled cell passes a queued item no longer than the walk |
| Day20.FrontierEdge | src/day20/main.rs:109-133 | a walk leaving the settled cells meets a queued item no longer than the walk |
| Day20.FrontierReach | src/day20/main.rs:109-133 | a cell reached in n steps and not settled has a queued item of distance at most n |
| Day20.Exhausted | src/day20/main.rs:109-133 | when the queue runs empty, every reachable cell is settled |
| Day20.SkipStale | src/day20/main.rs:110-114 | skipping an item no shorter than its cell's distance keeps the search invariant |
| Day20.PushesHold | src/day20/main.rs:115-132 | each open neighbour still unsettled below the new distance is pushed at one more step |
| Day20.PushesMember | src/day20/main.rs:115-132 | every item pushed is an open neighbour at one more step |
| Day20.RecordSettles | src/day20/main.rs:110-111 | the cell recorded was unsettled, its distance is its shortest walk and one more cell is settled |
| Day20.PushesQueued | src/day20/main.rs:115-132 | every pushed item is reached at its distance |
| Day20.SettleQueued | src/day20/main.rs:115-132 | the queue after settling holds only reachable items |
| Day20.SettleFound | src/day20/main.rs:110-111 | every settled distance is reached |
| Day20.SettleLowerBounds | src/day20/main.rs:110-111 | every settled distance is a shortest walk |
| Day20.RecordFrame | src/day20/main.rs:111 | recording one cell leaves the others unchanged |
| Day20.SettlePushedSelf | src/day20/main.rs:115-132 | each neighbour of the settled cell is settled or queued one step further |
| Day20.SettlePushedOther | src/day20/main.rs:110-132 | the neighbours of the other settled cells stay handled |
| Day20.SettlePushed | src/day20/main.rs:110-132 | after settling, every neighbour of a settled cell is settled or queued |
| Day20.Settle | src/day20/main.rs:110-132 | settling an item and pushing its neighbours keeps the search invariant |
| Day20.GetDistances | src/day20/main.rs:100-149 | get_distances maps exactly the cells reachable from the given cell, each to its shortest walk |
| Day20.PopItem | src/day20/main.rs:109-133 | one iteration keeps the invariant while settling a cell or shrinking the queue |
| Day20.Improve | src/day20/main.rs:110-132 | a shorter item settles its cell and pushes its neighbours |
| Day20.PushNeighbours | src/day20/main.rs:115-132 | the loop over DIRECTIONS pushes what each direction allows |
| Day20.PushTowards | src/day20/main.rs:116-131 | a neighbour is pushed exactly when it is not a wall and is further than its recorded distance |
| Day20.SearchStart | src/day20/main.rs:101-108 | all distances at i64::MAX and the start queued at 0 satisfy the search invariant |
| Day20.ReachedCells | src/day20/main.rs:134-148 | the map holds exactly the cells with a distance below i64::MAX, with that distance |
| Day20.DirectionsOpposite | src/day20/main.rs:16-21 | every direction's reverse is a direction |
| Day20.ReachReverse | src/day20/main.rs:152-153 | a walk can be walked back, so the distance from the end is the distance to it |
| Day20.ReachJoin | src/day20/main.rs:163 | walks can be joined, adding their lengths |
| Day20.DistancesConsistent | src/day20/main.rs:152-156 | no cell's distance from the start plus its distance to the end is below the race distance |
| Day20.Ring | src/day20/main.rs:160 | get_points_with_distance gives exactly the points at that Manhattan distance |
| Day20.Pairs | src/day20/main.rs:158-160 | the loops visit exactly the pairs of a start and an end at a cheat length in range |
| Day20.From | src/day20/main.rs:160 | the pairs from one start cell |
| Day20.NoClash | src/day20/main.rs:165-169 | two shortening cheats with the same sorted key are the same cheat, so the assertion never fires |
| Day20.KeyCount | src/day20/main.rs:165-173 | the cheats have as many keys as there are cheats |
| Day20.Insert | src/day20/main.rs:168-173 | a new cheat's key is vacant, and inserting its saving keeps the collection invariant |
| Day20.Consider | src/day20/main.rs:161-177 | one pair is added exactly when the end reaches the end cell and the cheat shortens the race |
| Day20.FromNext | src/day20/main.rs:160 | the ring is consumed one end at a time |
| Day20.CollectRing | src/day20/main.rs:160-178 | all cheats of one length from one start are collected |
| Day20.CollectFrom | src/day20/main.rs:159-179 | all cheats in the range from one start are collected |
| Day20.CollectShortcuts | src/day20/main.rs:157-180 | the shortcut map holds one key per shortening cheat, with its saving |
| Day20.KeysWithAdd | src/day20/main.rs:182-184 | counting one more key raises its value's tally by one |
| Day20.HistogramAdd | src/day20/main.rs:182-184 | adding a key to the histogram keeps it counting the keys per value |
| Day20.Histogram | src/day20/main.rs:181-185 | the histogram maps each saving to the number of shortcuts with it |
| Day20.TallyAdd | src/day20/main.rs:190-192 | folding one more saving adds its count when it is at least the threshold |
| Day20.TallyDone | src/day20/main.rs:190-192 | folding every saving counts the keys at or above the threshold |
| Day20.Tally | src/day20/main.rs:190-192 | the fold counts the shortcuts saving at least the threshold |
| Day20.CheatsSaving | src/day20/main.rs:181-185 | the cheats saving exactly a given amount |
| Day20.HistogramCounts | src/day20/main.rs:181-185 | the histogram counts the cheats by their saving |
| Day20.CalculateCheats | src/day20/main.rs:151-186 | calculate_cheats maps each saving to the number of distinct cheats in the range saving exactly that |
| Day20.SavingsOf | src/day20/main.rs:163-171 | each cheat with its saving |
| Day20.SavingsHistogram | src/day20/main.rs:188-200 | the cheats counted by the fold are those saving at least the threshold |
| Day20.Part1 | src/day20/main.rs:188-193 | part1 is the number of cheats of length 2 saving at least 100 steps |
| Day20.Part2 | src/day20/main.rs:195-200 | part2 is the number of cheats of length 2 to 20 saving at least 100 steps |
| Day21.NumpadKeys | src/day21/main.rs:24-38 | the numeric keys sit on distinct cells and A is the start cell |
| Day21.NumpadKeyValid | src/day21/main.rs:48 | every numeric key's cell, and the start, are valid cells |
| Day21.NumpadCells | src/day21/main.rs:24-48 | the valid numeric cells are the 3 by 4 grid without its bottom-left corner |
| Day21.DirpadKeys | src/day21/main.rs:39-47 | the direction keys sit on distinct cells and A is the start cell |
| Day21.DirpadKeyValid | src/day21/main.rs:49 | every direction key's cell, and the start, are valid cells |
| Day21.DirpadCells | src/day21/main.rs:39-49 | the valid direction cells are the 3 by 2 grid without its top-left corner |
| Day21.TraceAppend | src/day21/main.rs:62-66 | following two paths in turn ends where following their concatenation does |
| Day21.PathValidPrefixes | src/day21/main.rs:61-75 | a path is valid exactly when every cell it passes after the start is valid |
| Day21.IsPathValid | src/day21/main.rs:61-75 | is_path_valid's loop answers whether the path stays on valid cells |
| Day21.DeltaToPath | src/day21/main.rs:77-86 | delta_to_path gives one horizontal move per unit of dx and then one vertical move per unit of dy, each in the delta's direction |
| Day21.Run | src/day21/main.rs:61-75 | a run of n equal moves ends n cells away and is valid exactly when every cell on the way is |
| Day21.MovesReachTarget | src/day21/main.rs:77-86 | the moves of a delta have Manhattan length and lead from any cell to that cell plus the delta |
| Day21.RemoveAt | src/day21/main.rs:109-138 | removing one element shortens a sequence by one |
| Day21.PrependAll | src/day21/main.rs:109-138 | putting one element in front of each sequence keeps them in order |
| Day21.RemoveAtMultiset | src/day21/main.rs:109-138 | removing one element removes exactly it from the multiset |
| Day21.PermutationsSound | src/day21/main.rs:109-138 | every ordering produced is a permutation of the moves |
| Day21.PermutationsFromSound | src/day21/main.rs:109-138 | every ordering from a given first choice on is a permutation |
| Day21.InPermutationsFrom | src/day21/main.rs:109-138 | the orderings starting with a later first choice are included |
| Day21.PermutationsComplete | src/day21/main.rs:109-138 | every permutation of the moves is produced |
| Day21.ArrowsOfPermutation | src/day21/main.rs:109-138 | a permutation of arrows is made of arrows |
| Day21.ValidOrderings | src/day21/main.rs:110-117 | every ordering kept ends up a sequence of direction keys |
| Day21.ValidOrderingsSound | src/day21/main.rs:110-117 | each ordering kept is a valid permutation followed by A |
| Day21.ValidOrderingsStep | src/day21/main.rs:110-117 | filter_map keeps the orderings in order, one at a time |
| Day21.ValidOrderingsComplete | src/day21/main.rs:110-117 | every valid ordering is kept, followed by A |
| Day21.PermutationsOfMoves | src/day21/main.rs:105-109 | every ordering of a delta's moves is a sequence of arrows with the same moves |
| Day21.Candidates | src/day21/main.rs:105-117 | the candidate key sequences are direction keys |
| Day21.CandidatesExactly | src/day21/main.rs:105-117 | a sequence is a candidate exactly when it is a valid reordering of the delta's moves followed by A |
| Day21.CandidatesReachTarget | src/day21/main.rs:105-117 | every candidate has the Manhattan distance plus one presses and ends in A |
| Day21.CandidatesStayPut | src/day21/main.rs:105-117 | from a key to itself the only candidate is A |
| Day21.RunClearOfGap | src/day21/main.rs:61-75 | a straight run whose box misses the gap stays on valid cells |
| Day21.CornerGapMissed | src/day21/main.rs:24-49 | with the gap in a corner, one of the two L-shaped routes misses it |
| Day21.LRouteCandidate | src/day21/main.rs:105-117 | an L-shaped route missing the gap makes a candidate |
| Day21.CornerOrderingExists | src/day21/main.rs:118-148 | between valid cells some ordering is valid, so the min never fails |
| Day21.PathValidSplit | src/day21/main.rs:61-75 | two valid paths in turn make a valid path |
| Day21.DirpadCandidatesExist | src/day21/main.rs:118-119 | on the direction pad the expect never fires |
| Day21.NumpadCandidatesExist | src/day21/main.rs:147-148 | on the numeric pad the expect never fires |
| Day21.DirpadCandidatesFit | src/day21/main.rs:104-117 | the direction pad's candidates are those of every pair of its cells |
| Day21.NumpadCandidatesFit | src/day21/main.rs:133-146 | the numeric pad's candidates are those of every pair of its cells |
| Day21.MinCostIsMinimum | src/day21/main.rs:118 | min gives the cost of some candidate and no more than any candidate's |
| Day21.MinCostAtLeast | src/day21/main.rs:118 | a bound on every candidate bounds the min |
| Day21.RepressIsExact | src/day21/main.rs:99-103 | pressing A again costs the same as the min over the only candidate, A |
| Day21.CostAtLeastLength | src/day21/main.rs:88-126 | every key of the path costs at least one press |
| Day21.CostUpToAtLeast | src/day21/main.rs:98-122 | the first k keys cost at least k presses |
| Day21.StepCostAtLeastOne | src/day21/main.rs:98-122 | every key costs at least one press |
| Day21.MinCostOfKeys | src/day21/main.rs:118 | the min over non-empty key sequences is at least one |
| Day21.StepCostCases | src/day21/main.rs:98-122 | a repeated key costs a press of A one level down, otherwise the cheapest valid ordering from the cursor |
| Day21.MinOptSnoc | src/day21/main.rs:110-118 | the min over one more candidate is the smaller of the two |
| Day21.MinOverOrderings | src/day21/main.rs:105-119 | the loop gives the cheapest candidate's cost and keeps the memo sound |
| Day21.ScanOrderings | src/day21/main.rs:110-118 | the scan over the orderings gives the min over the valid ones |
| Day21.RecDir | src/day21/main.rs:88-126 | rec_dir returns the fewest presses for the path at that depth and records it in the memo |
| Day21.PressAll | src/day21/main.rs:96-122 | the loop over the path sums the cost of each key |
| Day21.PressKey | src/day21/main.rs:98-121 | one key adds its step cost |
| Day21.SolveLine | src/day21/main.rs:128-152 | solve_line returns the fewest presses for the code, and panics (None) exactly when a character is off the numeric keypad |
| Day21.SolveWith | src/day21/main.rs:128-152 | the loop over the code sums each key's cheapest candidate, stopping with None exactly when a character is off the numeric keypad |
| Day21.LineCostAtLeastLength | src/day21/main.rs:132-150 | the first k keys of a code cost at least k presses |
| Day21.CodeCostAtLeastLength | src/day21/main.rs:128-152 | a code costs at least one press per key |
| Day21.DigitsOf | src/day21/main.rs:159-161 | only the digits of a line are kept |
| Day21.CodeNumbers | src/day21/main.rs:156-165 | filter_map keeps at most one number per line |
| Day21.LineCosts | src/day21/main.rs:166 | one press count per line |
| Day21.SolveCodes | src/day21/main.rs:166 | the loop gives each line's press count, or None exactly when some line holds a character off the numeric keypad |
| Day21.AddCode | src/day21/main.rs:166 | one pass appends the line's press count, failing exactly when the line is not a code |
| Day21.LineCostPrefix | src/day21/main.rs:128-152 | the presses for the first k keys depend on those keys alone |
| Day21.Solve | src/day21/main.rs:154-171 | solve sums the numeric part of each code times its press count, zipped in order; None exactly when a line panics |
| Day21.CodeNumbersAligned | src/day21/main.rs:156-170 | when every line has a digit, the numbers line up with the lines |
| Day22.Signed | src/day22/main.rs:20 | a byte read back as an i8 has the same value modulo 256 |
| Day22.Byte | src/day22/main.rs:20 | `item as i32 & 0xFF` keeps the low byte, which reads back as the same i8 |
| Day22.ByteSigned | src/day22/main.rs:20 | a byte survives the round trip through i8 |
| Day22.ToI32 | src/day22/main.rs:19-20 | a 32-bit pattern read as an i32 has the same value modulo 2^32 |
| Day22.Shl8 | src/day22/main.rs:19 | `<<= 8` drops the top byte and shifts the rest up, leaving a zero low byte |
| Day22.PackUpTo | src/day22/main.rs:52-58 | packing bytes stays a 32-bit pattern |
| Day22.Pack | src/day22/main.rs:52-58 | packing any number of bytes stays a 32-bit pattern |
| Day22.Window | src/day22/main.rs:28-30 | the window holds the last min(n, 4) items |
| Day22.QuadShift | src/day22/main.rs:18-22 | pushing a fifth byte onto four shifts the oldest out |
| Day22.PackFour | src/day22/main.rs:52-58 | four packed bytes make a big-endian word |
| Day22.PackLastFour | src/day22/main.rs:18-22 | after at least four pushes, the value holds exactly the last four bytes |
| Day22.PackWindow | src/day22/main.rs:18-29 | the value depends only on the last four items |
| Day22.PackUpToPrefix | src/day22/main.rs:52-58 | packing a prefix does not look past it |
| Day22.Unpack | src/day22/main.rs:32-50 | _unpack reads four signed bytes |
| Day22.QuadBytes | src/day22/main.rs:37-39 | each byte of a packed word can be read back from its position |
| Day22.Bytes | src/day22/main.rs:54-56 | one byte per change |
| Day22.BytesAt | src/day22/main.rs:54-56 | each byte is its change's low byte, and reads back as that change |
| Day22.UnpackPack | src/day22/main.rs:204-220 | _unpack(_pack(d)) gives back any four changes, as the pack/unpack test expects |
| Day22.PackedSnoc | src/day22/main.rs:52-58 | packing one more change shifts and adds its byte |
| Day22.PackedWindow | src/day22/main.rs:52-58 | only the last four changes show in a packed word |
| Day22.RegisterPrefixAgree | src/day22/main.rs:18-22 | the register after k pushes depends only on the first k items |
| Day22.RegisterSnoc | src/day22/main.rs:18-22 | one push shifts the register and adds the new byte |
| Day22.RegisterPacked | src/day22/main.rs:18-58 | the buffer's register equals _pack of the items pushed |
| Day22.RegisterWindow | src/day22/main.rs:166-202 | the register holds the last four items pushed, as the buffer test expects |
| Day22.IntBuffer.constructor | src/day22/main.rs:15-17 | a new buffer holds 0 and no items |
| Day22.IntBuffer.Push | src/day22/main.rs:18-22 | push shifts the value by a byte, ors in the item's low byte and counts it |
| Day22.IntBuffer.Get | src/day22/main.rs:24-26 | get is the packed register of the items pushed |
| Day22.IntBuffer.Len | src/day22/main.rs:28-30 | len is the item count capped at 4 |
| Day22.PackValues | src/day22/main.rs:52-59 | _pack's loop gives the packed word of its last four changes |
| Day22.PushAll | src/day22/main.rs:166-202 | pushing changes into a new buffer makes get the packed last four and len min(count, 4) |
| Day22.Evolve | src/day22/main.rs:73-78 | one round of mixing and pruning, from any i64 secret (a negative one through the signed XOR), lands between 0 and 16777215 |
| Day22.SecretAfter | src/day22/main.rs:72-78 | after at least one round, the secret is between 0 and 16777215, whatever the sign of the initial secret |
| Day22.Price | src/day22/main.rs:79 | the price is the last decimal digit of the secret |
| Day22.Change | src/day22/main.rs:80 | the change is the difference between consecutive prices |
| Day22.Diffs | src/day22/main.rs:72-80 | one change per round |
| Day22.DiffsAt | src/day22/main.rs:79-82 | the j-th change is from price j to price j + 1 |
| Day22.PatternsTable | src/day22/main.rs:83-90 | the patterns are the first-occurrence table of the round keys and prices |
| Day22.Mix | src/day22/main.rs:73-78 | the three mix-and-prune steps compute one evolution |
| Day22.Calculate | src/day22/main.rs:67-96 | calculate, on any i64 secret, negative ones included, returns the secret after the rounds and the table of first prices per four-change pattern |
| Day22.Round | src/day22/main.rs:73-91 | one round takes the secret, the price, the pushed changes and the pattern table from round i to round i + 1 |
| Day22.FirstTableEntries | src/day22/main.rs:83-90 | every entry comes from some round from the fourth on |
| Day22.FirstTableGrow | src/day22/main.rs:85 | an entry once set is never overwritten |
| Day22.FirstTableDomain | src/day22/main.rs:83-90 | a key is in the table exactly when some round from the fourth on produced it |
| Day22.FirstTableFirst | src/day22/main.rs:84-88 | a key's entry is the price of the first round that produced it |
| Day22.PatternPrices | src/day22/main.rs:87 | every recorded price is a digit |
| Day22.PatternsEntries | src/day22/main.rs:83-90 | every pattern's price is the price at a round whose last four changes are that pattern |
| Day22.PatternsGrow | src/day22/main.rs:85 | more rounds only add patterns |
| Day22.PatternsDomain | src/day22/main.rs:83-90 | a pattern is recorded exactly when some round from the fourth on ends with it |
| Day22.PatternsFirst | src/day22/main.rs:84-88 | a pattern's price is the one at its first occurrence |
| Day22.KeyIsLastFourChanges | src/day22/main.rs:80-84 | the key at a round unpacks to the last four price changes |
| Day22.SecretSum | src/day22/main.rs:108-111 | after at least one round the sum of the final secrets is between 0 and 16777215 per buyer; with no round it is non-negative when the secrets are |
| Day22.Bananas | src/day22/main.rs:120-122 | a pattern earns between 0 and 9 per buyer |
| Day22.AllKeys | src/day22/main.rs:113-116 | the patterns tried are exactly those some buyer recorded |
| Day22.BestUnique | src/day22/main.rs:118-126 | the best total does not depend on the order the hash set yields the patterns |
| Day22.BestSum | src/day22/main.rs:118-126 | the loop finds the largest total any recorded pattern earns (0 when none earns more) |
| Day22.Tables | src/day22/main.rs:106 | one pattern table per buyer |
| Day22.Solve | src/day22/main.rs:106-131 | for any i64 secrets, part1 sums the secrets after the rounds and part2 is the best total over all patterns |
| Day22.Secrets | src/day22/main.rs:101-104 | the buyers are the lines that parse as i64, in order, at most one per line |
| Day22.SecretsKept | src/day22/main.rs:101-104 | when every line is an i64 each gives its buyer in order, and a line that is not one is dropped |
| Day22.Answers | src/day22/main.rs:98-131 | main's answers are the secret sum and the best banana total of the buyers read from the input, after 2000 rounds |
| Day22.BestBound | src/day22/main.rs:118-127 | the best total is between 0 and 9 per buyer |
| Day23.LessIrreflexive | src/day23/main.rs:53 | no name sorts before itself |
| Day23.LessAsymmetric | src/day23/main.rs:53 | two names never sort before each other |
| Day23.LessTransitive | src/day23/main.rs:53 | the string order is transitive |
| Day23.LessTotal | src/day23/main.rs:53 | of two different names one sorts first |
| Day23.Order3 | src/day23/main.rs:52-54 | the order among three names is total, antisymmetric and transitive |
| Day23.Sort3Sorted | src/day23/main.rs:52-54 | the sorted triple is in order and holds the same three names |
| Day23.Sort3OrderFree | src/day23/main.rs:52-54 | the sorted triple does not depend on the order of the names |
| Day23.LinkOf | src/day23/main.rs:16 | a link is read exactly from a line of two dash-free names joined by a dash |
| Day23.Parse | src/day23/main.rs:13-38 | the parse loop builds the link map, failing where the source panics |
| Day23.Connect | src/day23/main.rs:17-32 | one link records each end as a neighbour of the other, creating a missing entry as a singleton |
| Day23.LinksNone | src/day23/main.rs:33-35 | once a line fails, the parse fails |
| Day23.LinksSome | src/day23/main.rs:13-38 | the parse succeeds exactly when every line is a link |
| Day23.LinksMeaning | src/day23/main.rs:17-32 | b is a neighbour of a exactly when some line links them, in either order, and no entry is empty |
| Day23.InsertMember | src/day23/main.rs:17-24 | one insertion adds exactly one neighbour |
| Day23.ParseSymmetric | src/day23/main.rs:17-32 | the parsed map is symmetric |
| Day23.TrianglesMeaning | src/day23/main.rs:40-61 | the triangles are exactly the sorted triples of a t-name and two distinct neighbours linked to each other |
| Day23.TriangleBothWays | src/day23/main.rs:46-56 | a triangle found with a and b is found again with b and a as the same sorted triple |
| Day23.AddPairTriangles | src/day23/main.rs:47-57 | the inner loop adds the triangles through one neighbour |
| Day23.AddKeyTriangles | src/day23/main.rs:46-58 | the middle loop adds the triangles of one computer |
| Day23.Part1 | src/day23/main.rs:40-61 | part1 counts the distinct sorted triangles with a computer starting with t |
| Day23.LinkedIsClique | src/day23/main.rs:72-74 | in a symmetric map a greedy group is a clique |
| Day23.GreedyFoldSound | src/day23/main.rs:66-76 | a greedy group holds its computer and only visited neighbours, and every two members are linked |
| Day23.GreedyFoldMaximal | src/day23/main.rs:66-76 | a visited neighbour left out of the group lacks some member in its own set |
| Day23.GreedyMaximalClique | src/day23/main.rs:66-76 | in a symmetric network the greedy group of a computer is a maximal clique: no computer outside it is linked to every member |
| Day23.Greedy | src/day23/main.rs:66-76 | the loop builds the greedy group of the computer over its neighbours in the order the set yields them, each visited once |
| Day23.InsertSorted | src/day23/main.rs:82 | inserting a name adds exactly it |
| Day23.InsertSortedSorted | src/day23/main.rs:82 | inserting a new name keeps the names strictly sorted |
| Day23.SortNames | src/day23/main.rs:81-82 | the names of the group come out strictly sorted, each once |
| Day23.FirstLargest | src/day23/main.rs:79-80 | the group chosen is the first of the largest size |
| Day23.Part2 | src/day23/main.rs:63-84 | part2 builds the greedy group of every computer and joins with commas the sorted names of the first largest one; it fails exactly when there are no computers |
| Day23.AllGroups | src/day23/main.rs:64-78 | the loop builds, for every computer once, its greedy group |
| Day23.Solve | src/day23/main.rs:86-95 | the answers exist exactly when every line is a link, with part1 the triangle count and part2 the password of the first largest greedy group |
| Day24.BitwiseBits | src/day24/main.rs:9-17 | the low bit of AND/OR/XOR is the gate's truth table on the operands' low bits, and the rest is the same operation on the operands halved |
| Day24.BitwiseOnBits | src/day24/main.rs:9-17 | on levels 0 and 1 each operation gives 1 exactly when its logic gate is true |
| Day24.OrHigh | src/day24/main.rs:98-99 | OR-ing a bit shifted to position k onto a value below 2^k adds it |
| Day24.OpOf | src/day24/main.rs:9-17 | a gate name is known exactly when it is AND, OR or XOR |
| Day24.Fire | src/day24/main.rs:79-89 | visiting a gate never changes the number of gates |
| Day24.FireMeaning | src/day24/main.rs:79-89 | a gate fires only when undone with both inputs known, and then it is marked done, its output level is set, and a z output is recorded; otherwise nothing changes |
| Day24.Sweep | src/day24/main.rs:78-91 | one pass over the gates keeps the gate count |
| Day24.PropagateDone | src/day24/main.rs:77 | when the loop ends no z output is still unknown |
| Day24.PropagateMoreFuel | src/day24/main.rs:77-92 | a finished propagation gives the same circuit with any larger pass budget |
| Day24.Undone | src/day24/main.rs:79 | the count of undone gates among the first n is at most n |
| Day24.UndoneMark | src/day24/main.rs:84 | marking an undone gate done lowers the undone count by one |
| Day24.UndoneSame | src/day24/main.rs:79 | two gate lists with the same done flags have the same undone count |
| Day24.FireCount | src/day24/main.rs:79-89 | a visit either changes nothing or completes exactly one gate |
| Day24.SweepCount | src/day24/main.rs:78-91 | a pass never raises the undone count, and a pass that completes no gate changes nothing |
| Day24.Stuck | src/day24/main.rs:77-92 | when an output is unknown and a whole pass changes nothing, the source's loop never ends |
| Day24.FuelSuffices | src/day24/main.rs:77-92 | a budget above the number of undone gates decides termination: if it fails, every larger budget fails too |
| Day24.ZName | src/day24/main.rs:95 | an output key is "z" followed by at least two digits |
| Day24.ZNameValue | src/day24/main.rs:95 | the digits of key i spell i |
| Day24.ZNamesCount | src/day24/main.rs:94-95 | the first n output keys are n distinct names, each of the form z{i:02} |
| Day24.PresentBound | src/day24/main.rs:94-105 | only as many bits as there are recorded outputs can be present in a row |
| Day24.Width | src/day24/main.rs:94-105 | the assembly stops at the first missing z key, after every key below it |
| Day24.AssembledBinary | src/day24/main.rs:93-106 | with 0/1 levels the OR-and-shift assembly is the binary number with z00 as the least significant bit, below 2^n |
| Day24.GateOf | src/day24/main.rs:55-70 | a parsed gate starts undone |
| Day24.ParseLine | src/day24/main.rs:40-44 | a line is the section break exactly when it is empty |
| Day24.ParsedLines | src/day24/main.rs:39 | every line is read, in order |
| Day24.ReadLinesFresh | src/day24/main.rs:32-74 | after parsing every gate is undone and the outputs are exactly the z wires driven by a gate, all unknown |
| Day24.ParseFresh | src/day24/main.rs:32-74 | a whole input that parses yields a fresh circuit |
| Day24.Day24.constructor | src/day24/main.rs:33-37 | the new object holds the given gates, levels and outputs |
| Day24.Day24.Visit | src/day24/main.rs:79-89 | the object's new state is the single-gate step applied to the old one |
| Day24.Day24.SweepAll | src/day24/main.rs:78-91 | the object's new state is one full pass over the old one |
| Day24.Day24.Run | src/day24/main.rs:77-92 | reports finishing exactly when the propagation finishes within the budget, and then holds its result |
| Day24.Day24.Assemble | src/day24/main.rs:93-106 | returns the assembled z bits of the current state |
| Day24.Day24.Part1 | src/day24/main.rs:76-107 | answers exactly when the propagation finishes, with the assembled number of the final circuit |
| Day24.Parse | src/day24/main.rs:32-74 | a new object exactly when every line parses, holding the parsed circuit; a panic of the source is None |
| Day24.ReadAll | src/day24/main.rs:39-72 | the loop over lines computes the line-by-line reader |
| Day24.ReadStep | src/day24/main.rs:40-71 | one line extends the reader state by one line |
| Day24.ReadLinesNone | src/day24/main.rs:39-72 | once a line panics, reading more lines still panics |
| Day24.ExampleFire0 | src/day24/main.rs:128-142 | the first gate of the sample fires as the source does |
| Day24.ExampleFire1 | src/day24/main.rs:128-142 | the second gate of the sample fires as the source does |
| Day24.ExampleFire2 | src/day24/main.rs:128-142 | the third gate of the sample fires as the source does |
| Day24.ExampleSweep | src/day24/main.rs:128-142 | one pass finishes the sample circuit |
| Day24.ExamplePropagate | src/day24/main.rs:128-142 | the sample finishes within one pass |
| Day24.ExampleNames | src/day24/main.rs:95 | keys 0 to 3 are z00 to z03 |
| Day24.ExampleWidth | src/day24/main.rs:128-142 | the sample has three output bits with levels 0, 0 and 1 |
| Day24.ExampleAnswer | src/day24/main.rs:128-142 | the sample's answer is 4 |
| Day25.LockScan | src/day25/main.rs:28-33 | the scan down a lock column stops at the first '.' below the top row; finding none, every cell is not '.'; a short row on the way is a panic |
| Day25.KeyScan | src/day25/main.rs:39-44 | the scan up a key column stops at the lowest '.'; finding none, no cell is '.'; a short row below the last '.' is a panic |
| Day25.LockColumn | src/day25/main.rs:28-33 | the loop down one lock column gives the scan's result |
| Day25.KeyColumn | src/day25/main.rs:39-44 | the loop up one key column gives the scan's result |
| Day25.LockPattern | src/day25/main.rs:27-34 | a lock gets at most one height per column |
| Day25.KeyPattern | src/day25/main.rs:38-45 | a key gets at most one height per column |
| Day25.LockPatternBounds | src/day25/main.rs:27-34 | with rows at least as wide as the top row a lock always parses, each height between 0 and the rows below the top minus one |
| Day25.KeyPatternBounds | src/day25/main.rs:38-45 | with rows at least as wide as the top row a key always parses, each height between -1 and the rows minus two |
| Day25.LockPatternLength | src/day25/main.rs:27-34 | a lock gets exactly one height per column that holds a '.' below the top row |
| Day25.LockPatternNoneStays | src/day25/main.rs:23-34 | a panic in one lock column is a panic for the whole lock |
| Day25.KeyPatternNoneStays | src/day25/main.rs:38-45 | a panic in one key column is a panic for the whole key |
| Day25.LockPatternOf | src/day25/main.rs:27-34 | the column loop of a lock builds its height pattern or panics |
| Day25.KeyPatternOf | src/day25/main.rs:38-45 | the column loop of a key builds its height pattern or panics |
| Day25.SchematicOf | src/day25/main.rs:21-47 | an empty part panics; otherwise the part is a lock exactly when its top row is all '#' |
| Day25.SchematicsOf | src/day25/main.rs:20-21 | every blank-line-separated part is read, in order |
| Day25.Locks | src/day25/main.rs:35 | there are no more locks than schematics |
| Day25.Keys | src/day25/main.rs:46 | there are no more keys than schematics |
| Day25.LocksAndKeys | src/day25/main.rs:25-47 | every schematic becomes exactly one lock or one key |
| Day25.AllPresent | src/day25/main.rs:20-48 | parsing all parts keeps one schematic per part |
| Day25.AllPresentMeaning | src/day25/main.rs:20-48 | the input parses exactly when every part does, keeping each part's schematic |
| Day25.AbsentStops | src/day25/main.rs:20-48 | one part that panics makes the whole parse panic |
| Day25.Day25.constructor | src/day25/main.rs:16-19 | the new object holds the given locks and keys |
| Day25.Day25.Part1 | src/day25/main.rs:52-66 | counts the fitting (lock, key) pairs, at most every pair |
| Day25.ReadSchematic | src/day25/main.rs:21-47 | reading one part gives its schematic, or None where the source panics |
| Day25.ParseParts | src/day25/main.rs:20-49 | a new object exactly when every part parses, with the locks and the keys in input order |
| Day25.Parse | src/day25/main.rs:15-50 | splits on blank lines and keeps the locks and the keys in input order, or None where the source panics |
| Day25.SortStep | src/day25/main.rs:35-46 | one more schematic is appended to the locks or to the keys, by its kind |
| Day25.LocksPrefix | src/day25/main.rs:35 | the locks among the first n schematics depend on those alone |
| Day25.KeysPrefix | src/day25/main.rs:46 | the keys among the first n schematics depend on those alone |
| Day25.FitsWith | src/day25/main.rs:55-63 | at most all keys fit one lock |
| Day25.FitCountBound | src/day25/main.rs:54-64 | at most every (lock, key) pair fits |
| Day25.FitsWithCounts | src/day25/main.rs:55-63 | the count for one lock is the number of keys whose heights, over the columns both have, add up to at most 5 |
| Day25.ExampleFits | src/day25/main.rs:85-94 | the sample's two locks and three keys give 3 fitting pairs |
| Day25.LockPatternStep | src/day25/main.rs:29-31 | a '.' on row y in the next column appends height y - 1 |
| Day25.KeyPatternStep | src/day25/main.rs:40-42 | a '.' on row y in the next column appends height rows - y - 2 |
| Day25.ExampleLockLeft | src/day25/main.rs:93 | the first three columns of the sample's first lock |
| Day25.ExampleLockRight | src/day25/main.rs:93 | the last two columns of the sample's first lock |
| Day25.ExampleLock | src/day25/main.rs:93 | the sample's first lock parses to 0,5,3,4,3 |
| Day25.ExampleKeyLeft | src/day25/main.rs:88 | the first three columns of the sample's first key |
| Day25.ExampleKeyRight | src/day25/main.rs:88 | the last two columns of the sample's first key |
| Day25.ExampleKey | src/day25/main.rs:88 | the sample's first key parses to 5,0,2,1,3 |

## Left out

- Reading the input file, printing and timing in every `main`: the model starts from the input text, or from its lines, and ends with the answers.
- Day 15 is not part of this model: its parser, simulation and part 2 are unfinished in the source.
- Debug drawing and formatting (`draw`, `_draw`, `Display`/`Debug` impls, `IntBuffer::_unpack`'s text); unpacking is modelled as a sequence of bytes.
- Machine-integer overflow of `i32`/`i64`/`usize` arithmetic is not modelled, except in the day 22 register, the signed XOR of days 17 and 22 and Rust's truncating division and remainder. Where overflow would matter, a precondition keeps values in range (for example the cost bound `GoodBounds` of days 18 and 20).
- The XOR mixing of day 22 works on unbounded integers rather than bit-vectors. The first mix of the first round (`num ^= num * 64` on a secret read from the input, which may be negative) uses `Common.IntXor`, the two's-complement XOR of signed integers, and `%` by 16777216 acts as `rem_euclid`. Every later mix works on values already in [0, 2^24) and their non-negative multiples and quotients, and uses `Common.Xor`, bit by bit. Overflow of `num * 64` and `num * 2048` in `i64` is not modelled.
- Hash iteration order is abstracted: which clique of day 23 wins a tie, which order day 12 visits fences in, which equal-cost ordering day 21 keeps. The model specifies the values that do not depend on that order.
- `itertools::permutations` is modelled as all orderings of the move multiset, duplicates kept. `lazy_static` tables are constants, and `HashMap`, `HashSet` and `BinaryHeap` are Dafny maps, sets and a multiset with a least-cost `pop`.
- `contains_point`, `get_quadrants`, `get_points_with_distance` and the `Sub`/`Mul`/`Ord` impls on `PointT` are used by the solvers but absent from `src/lib.rs`. They are modelled with their evident meaning: the rectangle test, the two halves of each axis with an odd middle line dropped, the points at an exact Manhattan distance, and componentwise arithmetic. The ordered pair of day 20's cheat keys is modelled as the unordered pair `{a, b}`.
- Unit tests that read fixture files not in the source (`test_dbg` of day 12, day 25) are not replayed.
- The sample tests of day 12 (prices 140 and 80, 772 and 436, and 368) are not replayed: the regions come from `build_areas`, a method of the `Garden` class, and the verifier does not evaluate methods. `Day12.Sides` and `Day12.Part2` state the side count and the bulk price for every input instead.
- The sample tests of day 16 (7036 and 45, 11048 and 64) are not replayed: `solve` is a method, and its answers are specified as the lowest score over all routes of a 15×15 and a 17×17 maze, which the verifier cannot evaluate. `Day16.Maze.Solve` states both answers for every maze.
- The sample test of day 18 (22 steps, then the byte at 6,1) is not replayed, for the same reason: the search is a method, and the steps are a minimum over all walks of the grid.
- The cheat histogram test of day 20 is not replayed: the distances come from a method of the same kind, and the histogram is a count over all pairs of track cells.
- The tests of day 22 (`calculate` from 123 over ten rounds, and 23 bananas) are not replayed: XOR is modelled by arithmetic recursion on unbounded integers, and evaluating it on the sample's numbers exceeds the verifier's resource limit.
- The sample test of day 23 (7 triangles and "co,de,ka,ta") is not replayed: the sets of triples of its 32 links are too large for the verifier to evaluate, and part 2's answer depends on the `HashMap` iteration order, which the model leaves open.
- The depth-25 evaluation of day 21 and the large examples of days 11, 19 and 21 are not evaluated by the verifier. Memo transparency and the all-input lemmas stand in for them.
- Text is modelled as a sequence of characters, taken to be ASCII. Rust indexes a `&str` by bytes: the slices and `find` offsets of day 3 and the `len()`-based slicing of days 14 and 19 use byte positions. Those equal character positions only on ASCII text, so input with multi-byte UTF-8 characters is not modelled.
- Day09.Answers: states that a part 1 answer is the checksum of a rearrangement of the initial disk, but not that part 1 answers on every valid map. That the source's part 1 loop never reaches its panics (an index `rear_idx - i` below zero, a front index past the end) on a disk built from a map is not proved.
- Day09.Part1: states that the blocks are kept and the checksum is that of the final disk, but not that the final layout is compact. It also requires `NoEmptyBlocks`: a file of zero blocks makes the source's two-pointer loop stall.
- Day16.Maze: requires `Enclosed` (a wall border), because off the level the source indexes out of range or reaches `todo!()`.
- Day17.FindSelf: sound only: a reported candidate reproduces the program, but the search is bounded by a step budget and minimality is not stated.
- Day18.Solver: requires `GoodBounds` and a grid of the bounds' shape, and the falling-byte list must parse (the source's `unwrap`).
- Day19.Solver: requires `NoEmptyTowel`, because an empty towel makes the source's `rec` recurse on the same design for ever.
- Day20.CalculateCheats, Day20.Part1 and Day20.Part2: require `Track` (a wall border), because the source indexes outside the level otherwise; open start and end cells; and `exists n: nat :: Reach(race.level, race.bounds, race.start, race.end, n)`, that the end can be reached from the start, which stands in for `.expect("Maze is not solvable.")` in `calculate_cheats` (src/day20/main.rs:154-156). The path vector that `get_distances` also returns is not modelled.
- Day14.Position: requires `Wraps` (non-zero width and height), because `rem_euclid` panics on zero.
- Day24: part 2 of the source is a stub returning an empty string and is not modelled.
- Day06.Simulation.Simulate, Day17.Machine.RunProgram and Day24.Day24.Run: take a step budget. Lemmas about the budget (`Day24.FuelSuffices`, `Day24.Stuck`) replace a termination proof of the source's unbounded loops.

## Findings

| source | as written | input that shows it | evidently intended | confidence | as-written member | corrected member |
|---|---|---|---|---|---|---|
| src/day13/main.rs:82-85 | solve_p1 rejects press counts above 100 but never checks that they are non-negative | A = (1, 2), B = (2, 1), prize (1, 5): the solution is x = 3, y = -1, and solve_p1 returns Some(8) although no non-negative counts win, so main's part 1 total counts 8 tokens; with A = (2, 1), B = (3, 3), prize (1, 2) the total is -2 | pay only for counts between 0 and 100 | not executed; the puzzle's inputs may never produce such a machine | Day13.SolveP1NegativePresses | Day13.SolveP1Checked |
| src/day13/main.rs:106-107 | solve_p2 returns x * 3 + y without checking the signs of x and y | A = (1, 2), B = (2, 1), prize (0, 10000000000003) moved to (10000000000000, 20000000000003): x = 10000000000002, y = -1 | pay only for non-negative counts | not executed; the puzzle's inputs may never produce such a machine | Day13.SolveP2NegativePresses | Day13.SolveP2Checked |
