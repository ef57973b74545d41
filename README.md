# Advent of Code 2022 solvers, modelled in Dafny

The repository holds one Rust program per day of Advent of Code 2022. Each reads a puzzle input and prints two answers. This project models the logic of every day's solver, and proves properties of that model.

The main part is day 17. It simulates five rock shapes falling, in a fixed cycle, into a chamber seven cells wide. A jet pattern, repeated forever, alternately pushes each rock left or right, and gravity pulls it one cell down, until a fall is blocked and the rock comes to rest. After every rock, the occupied cells are reduced to the boundary that a Moore-neighbourhood contour trace finds. The trace briefly adds walls and a floor around the cells, and strips them again afterwards.

The other days are small sequential algorithms:

* calorie sums (1), hand shapes (2), rucksack sets (3), section ranges (4);
* crate stacks (5), a marker window (6), a directory tree (7), tree visibility (8);
* a rope (9), a CPU with a display (10), monkeys passing items (11), and a hill-climbing Dijkstra search (12);
* packet ordering (13), falling sand (14), and sensor coverage intervals (15);
* valves opened in a bitmask search (16), lava cubes in an octree (18), and robot-building depth-first search (19);
* circular mixing (20), monkey expressions (21), a board walk (22), elf diffusion (23), blizzards (24), and balanced base-5 numbers (25).

Each day is one module, or a few modules when the Rust crate has several files. A module's members follow the source's functions.

Pure code is modelled as functions. Loops and in-place updates are methods, proved against those functions. Objects whose fields change are classes, for example the rope, the troop of monkeys, the valve search, the elves iterator and the valley iterator.

A panic in the source is an explicit outcome: `None`, `Err` or a dedicated variant. A panic can come from an `unwrap`, an index out of range, or debug-build integer overflow.

`Common` holds the shared pieces:

* `Option` and `Result`;
* decimal text and its parsing;
* splitting and joining text.

In day 17 the code has no cycle detector: only a `cycle_height` field and `get_adjusted_height` remain, and no detector is modelled. The code also does not translation-normalise the traced boundary: it only shifts it back by 2, and so does the model.

## Model

| member | source | states |
|---|---|---|
| Day01.ParseElf | 1/src/main.rs:15-22 | an elf's inventory has one entry per non-empty line of its block, each below 2^32; None where a line is not a `u32` |
| Day01.ParsePuzzle | 1/src/main.rs:24-26 | one elf per piece of the text between "\n\n", in order; None exactly when some piece fails to parse |
| Day01.TotalCalories | 1/src/main.rs:28-30 | one total per elf, in order, each the sum of that elf's inventory |
| Day01.MostCalories | 1/src/main.rs:32-34 | the result is one of the totals and no total exceeds it; None exactly for an empty list |
| Day01.SortAscending | 1/src/main.rs:44 | the totals in ascending order, a permutation of the input |
| Day01.TopThreeAreLargest | 1/src/main.rs:44-46 | the three summed totals are min(3, n) of the totals and none left out is larger than one taken |
| Day01.TopThree | 1/src/main.rs:44-46 | at most three elves, fewer only when there are fewer elves, each one of the given totals |
| Day01.TopThreeSum | 1/src/main.rs:44-46 | with non-negative totals, the top-three sum is at least the single largest total |
| Day01.MostIsInTopThree | 1/src/main.rs:40-46 | the part-one answer is one of the three totals summed for part two |
| Day01.SortedIsUnique | 1/src/main.rs:44 | two ascending permutations of the same totals are equal, so any sort gives the same top three |
| Day01.ParseRenderElf | 1/src/main.rs:15-22 | an elf's block, with or without a trailing newline, parses back to that elf |
| Day01.SplitRenderPuzzle | 1/src/main.rs:24-26 | a rendered puzzle splits on blank lines into exactly its elves' blocks |
| Day01.ParseRenderPuzzle | 1/src/main.rs:24-26 | parsing a rendered puzzle gives back every elf with its inventory in order |
| Day01.ExampleBlocks | 1/src/main.rs:84-85 | the test text splits into the five blocks of the five test elves |
| Day01.ExamplePuzzle | 1/src/main.rs:82-87 | the test text parses to the five test elves |
| Day01.ExampleTotals | 1/src/main.rs:89-95 | the test elves' totals are 6000, 4000, 11000, 24000, 10000 |
| Day01.ExampleMost | 1/src/main.rs:32-34 | the most calories in the test totals is 24000 |
| Day01.ExampleTopThree | 1/src/main.rs:44-46 | the three largest test totals sum to 45000 |
| Day01.Insert | 1/src/main.rs:44 | inserting one total into an ascending list keeps it ascending and adds exactly that total to its multiset |
| Day01.FirstIsLeast | 1/src/main.rs:44 | the first entry of an ascending list is at most every total in it |
| Day01.TopThreeOfSorted | 1/src/main.rs:44-46 | the top three of any list of totals are the last three entries of any ascending permutation of it |
| Day01.LinesParse | 1/src/main.rs:15-22 | each rendered calorie line parses back to its own number, so an elf's lines parse to its inventory |
| Day01.ExampleSorted | 1/src/main.rs:44 | the example's totals 6000, 4000, 11000, 24000, 10000 sort to 4000, 6000, 10000, 11000, 24000 |
| Day02.ParseHandShape | 2/src/main.rs:11-18 | A/X decode to Rock, B/Y to Paper, C/Z to Scissors, each an if-and-only-if; every other character is None (the panic) |
| Day02.ParseRound | 2/src/main.rs:20-29 | a round is decoded exactly when the line is non-empty and its first and last characters decode; the opponent is the first, the response the last |
| Day02.ParseGuide | 2/src/main.rs:31-38 | one round per non-empty line, in order; None exactly when some non-empty line fails to decode |
| Day02.ParseRenderRound | 2/src/main.rs:20-29 | a rendered round decodes back to itself |
| Day02.ParseRoundLines | 2/src/main.rs:31-38 | empty lines anywhere in the guide are skipped: a guide whose non-empty lines are rendered rounds decodes to those rounds |
| Day02.ParseRenderGuide | 2/src/main.rs:31-38 | decoding undoes rendering for every guide |
| Day02.ExampleGuide | 2/src/main.rs:48-58 | the test guide, two trailing newlines included, decodes to (Rock, Paper), (Paper, Rock), (Scissors, Scissors) |
| Day02.ParseLetters | 2/src/main.rs:11-18 | each hand shape's opponent letter (A, B, C) and response letter (X, Y, Z) parse back to that shape |
| Day03.ParseCompartment | 3/src/main.rs:33-41 | one item per character of the text, in order |
| Day03.ParseRucksack | 3/src/main.rs:43-56 | a rucksack exactly for a line of even length; its two compartments are the two halves, of equal size, whose items together are the line's items |
| Day03.ParseRucksacks | 3/src/main.rs:58-64 | one rucksack per non-empty line, each that line's rucksack; None exactly when some non-empty line has odd length |
| Day03.DuplicateItems | 3/src/main.rs:66-72 | an item is a duplicate exactly when it is in both compartments |
| Day03.Priority | 3/src/main.rs:78-90 | a..z have priorities 1..26 and A..Z 27..52 |
| Day03.PriorityInjective | 3/src/main.rs:78-90 | different letters have different priorities |
| Day03.LetterAtPriority | 3/src/main.rs:79-81 | every letter occurs in the chain a..z, A..Z at the position its priority names |
| Day03.GetPriorityMap | 3/src/main.rs:78-90 | the map's keys are exactly the 52 letters and each maps to its priority |
| Day03.GetCommonItems | 3/src/main.rs:105-117 | an item is common exactly when it is in each of the first three sets; None (the `unwrap` panic) exactly for fewer than three sets |
| Day03.GetBadge | 3/src/main.rs:119-127 | the badge is in all three rucksacks of the group; None exactly when the group is short or has no item in common |
| Day03.Chunk | 3/src/main.rs:129-131 | chunk k of `chunks(3)` holds one to three rucksacks, three exactly when it is not a short last chunk |
| Day03.GetBadges | 3/src/main.rs:129-131 | one badge per chunk, each common to its chunk's three rucksacks; None only for a short last chunk or a chunk with nothing in common |
| Day03.CompartmentMembers | 3/src/main.rs:33-41 | an item is in a parsed compartment exactly when its character is in the text |
| Day03.RucksackOfHalves | 3/src/main.rs:43-56 | a line made of two halves of equal length parses to the rucksack of those halves |
| Day03.ExampleRucksack | 3/src/main.rs:156-190 | the test line parses to the two compartments of twelve items each that the test lists |
| Day03.ExampleDuplicate | 3/src/main.rs:66-72 | the only item in both compartments of the test rucksack is p |
| Day03.ExampleBadge | 3/src/main.rs:192-199 | r is the only item the three test rucksacks share, so it is the badge |
| Day03.CompartmentAppend | 3/src/main.rs:33-41 | parsing a compartment distributes over concatenating its text |
| Day03.FromHalvesMembers | 3/src/main.rs:43-56 | an item is in a rucksack built from two halves exactly when its letter occurs in either half |
| Day03.DuplicateOfText | 3/src/main.rs:66-72 | when exactly one letter occurs in both halves, that item is the rucksack's only duplicate |
| Day03.BadgeOfText | 3/src/main.rs:119-127 | when exactly one letter occurs in all three rucksacks of a group, that item is the only one common to all three |
| Day03.LetterAt | 3/src/main.rs:79-81 | every priority from 1 to 52 belongs to some letter |
| Day04.ParseRangeOfNumerals | 4/src/main.rs:17-26 | "a-b" with two numerals below 2^32 parses to the range from a to b |
| Day04.ParseRenderRange | 4/src/main.rs:17-26 | parsing undoes rendering for every range of `u32` section IDs |
| Day04.ParseRenderPair | 4/src/main.rs:28-31 | parsing undoes rendering for every pair of `u32` ranges |
| Day04.ParseRenderInput | 4/src/main.rs:33-39 | a newline-separated list of pairs parses back to the same pairs in order |
| Day04.ContainmentIsSymmetric | 4/src/main.rs:41-44 | whether a pair is fully contained does not depend on the order of its two ranges |
| Day04.BoundsAreContainment | 4/src/main.rs:41-44 | for a non-empty range the bounds test is exactly inclusion of the sets of sections |
| Day04.FullyContainedPairs | 4/src/main.rs:46-51 | the result holds only fully contained pairs of the input and every fully contained input pair |
| Day04.FullyContainedPairsAppend | 4/src/main.rs:46-51 | the filter distributes over concatenation, so the kept pairs keep their input order |
| Day04.ExampleInput | 4/src/main.rs:76-82 | the test text parses to the six test pairs |
| Day04.ExampleContainedPairs | 4/src/main.rs:84-93 | exactly (2-8, 3-7) and (6-6, 4-6) of the test pairs are fully contained, in that order |
| Day04.ParseRange | 4/src/main.rs:17-26 | a range that parses has both section ids below 2^32, the range of the u32 section id |
| Day04.ParsePair | 4/src/main.rs:28-31 | a line with no comma has no pair; a parsed pair is the parse of the first and of the second comma-separated piece |
| Day04.ParseInput | 4/src/main.rs:33-39 | a parsed input has one pair per non-empty line |
| Day05.ParseCrate | 5/src/main.rs:27-35 | a three-character cell is empty exactly when it is three spaces; otherwise the crate is its middle character |
| Day05.ParseStackLine | 5/src/main.rs:37-55 | a line of 4k + 3 characters reads, cell by cell, into the `StackLine` cells, one per four characters; a line of any other length runs out inside a cell, the `next().unwrap()` panic (None) |
| Day05.StackLineExample | 5/src/main.rs:235-241 | the test line "    [D]    " reads as empty, D, empty |
| Day05.CreateStacks | 5/src/main.rs:65-88 | one stack per label, in label order, each holding its column's crates from the bottom row up; None (the `stacks[i]` panic) exactly when some crate lies in a column without a label |
| Day05.ColumnBelowAll | 5/src/main.rs:72-79 | pushing the rows from the bottom up builds each whole column |
| Day05.ColumnsExample | 5/src/main.rs:189-205 | the three test rows stack to Z N, M C D and P, the stacks the test expects |
| Day05.ParseInstruction | 5/src/main.rs:103-110 | every parsed amount fits a `u32` and both labels fit a `u8`; a line with fewer than six words or a bad number is None |
| Day05.ParseRenderInstruction | 5/src/main.rs:103-110 | every "move a from f to t" whose numbers fit parses back to that instruction |
| Day05.ParseProcedure | 5/src/main.rs:112-114 | one instruction per line, each that line's instruction; None exactly when some line does not parse |
| Day05.MoveOneAtATime | 5/src/main.rs:121-134 | moving k crates one at a time puts the top k crates of the source stack, reversed, on the target stack (nothing changes when source and target are the same) |
| Day05.Apply | 5/src/main.rs:121-154 | one instruction keeps the number of stacks and an amount of zero changes nothing |
| Day05.ApplyKeepsTotal | 5/src/main.rs:121-154 | no crate is created or lost by either crane |
| Day05.ApplyTouchesOnlyFromAndTo | 5/src/main.rs:121-154 | every stack keeps its label and only the source and target stacks change |
| Day05.PutBack | 5/src/main.rs:136-154 | taking the top k crates off a stack and putting them back as they were restores the stacks |
| Day05.CranesAgreeOnOneCrate | 5/src/main.rs:121-154 | the two cranes agree on instructions that move at most one crate |
| Day05.RunInstruction | 5/src/main.rs:121-134 | the CrateMover 9000 loop succeeds exactly when the instruction can be run (labels in range, enough crates on the source stack), and the stacks are then those `Apply` gives, the moved block reversed |
| Day05.MoveTopCrate | 5/src/main.rs:126-130 | one pass moves the top crate of the source stack onto the target stack |
| Day05.PopBlock | 5/src/main.rs:140-145 | the queue receives the top k crates of the source stack, top first, and the stack loses them; a panic exactly when the label is out of range or the stack holds fewer than k crates |
| Day05.PushQueue | 5/src/main.rs:147-151 | popping the queue onto the target stack adds the block back in its original order |
| Day05.RunInstruction9001 | 5/src/main.rs:136-154 | the CrateMover 9001 succeeds exactly when the target label and, for a non-zero amount, the source label and its k crates exist; the stacks are then those `Apply` gives, the moved block in order |
| Day05.RunKeepsTotal | 5/src/main.rs:156-162 | running a whole procedure keeps the number of crates |
| Day05.RunProcedure | 5/src/main.rs:156-162 | folding the instructions over the stacks in place succeeds exactly when every instruction can be run in turn, and then gives `Run` |
| Day05.TopCrates | 5/src/main.rs:164-169 | one character per stack, in stack order, each that stack's top crate; None (the `last().unwrap()` panic) exactly when some stack is empty |
| Day05.EmptyStackPanics | 5/src/main.rs:164-169 | the test procedure's second step leaves the first stack empty, where reading the top crates panics |
| Day05.ExampleStep1 | 5/src/main.rs:243-282 | the first test instruction turns the test stacks into Z N D, M C, P |
| Day05.ExampleStep2 | 5/src/main.rs:284-305 | the second test instruction gives the empty stack, M C and P D N Z |
| Day05.ExampleRun | 5/src/main.rs:308-365 | the whole test procedure ends with C, M and P D N Z |
| Day05.ExampleTopCrates | 5/src/main.rs:171-176 | the top crates after the test procedure read "CMZ" |
| Day05.StackLine | 5/src/main.rs:37-55 | a drawing line of length 4n-1 has one optional crate per stack, n in all |
| Day05.TotalOfMove | 5/src/main.rs:121-154 | taking k crates off one stack and putting k crates on one stack keeps the number of crates |
| Day05.PopCrate | 5/src/main.rs:126-130 | popping a crate removes exactly the top crate of the source stack and returns it |
| Day05.Run | 5/src/main.rs:156-162 | running a procedure keeps the number of stacks |
| Day05.RunFirst | 5/src/main.rs:156-162 | running a procedure is applying its first instruction and then running the rest |
| Day05.ExampleStep3 | 5/src/main.rs:308-365 | the example's third instruction is runnable and leads to the third intermediate drawing |
| Day05.ExampleStep4 | 5/src/main.rs:308-365 | the example's fourth instruction is runnable and leads to the final drawing |
| Day06.NoRepeat | 6/src/main.rs:20-27 | the character-by-character test is true exactly when no character of the window occurs twice |
| Day06.HasRepeat | 6/src/main.rs:20-27 | the nested loops report a repeat exactly when the deque's characters are not pairwise different |
| Day06.FindStart | 6/src/main.rs:7-35 | the deque loop returns the end position of the first window of four different characters, None when there is none |
| Day06.FirstMarkerIsFirst | 6/src/main.rs:7-35 | the reported position ends a marker, no earlier index ends one, and None exactly when no index does |
| Day06.MarkerInPrefix | 6/src/main.rs:11-32 | a marker found in a prefix is found whatever follows it, since the loop returns at the first one |
| Day06.RepeatSkipped | 6/src/main.rs:20-25 | a repeated pair inside the current window means the search moves on to the next index |
| Day06.ExampleOne | 6/src/main.rs:54 | the first test stream's marker ends at 7 |
| Day06.ExampleTwo | 6/src/main.rs:56 | the second test stream's marker ends at 5 |
| Day06.ExampleThree | 6/src/main.rs:58 | the third test stream's marker ends at 6 |
| Day06.ExampleFour | 6/src/main.rs:60 | the fourth test stream's marker ends at 10 |
| Day06.ExampleFive | 6/src/main.rs:62 | the fifth test stream's marker ends at 11 |
| Day06.FirstMarker | 6/src/main.rs:7-35 | the first marker, when one exists, is a position from 4 to the stream length |
| Day06.FirstMarkerFromIsFirst | 6/src/main.rs:11-32 | a marker found from a position is one with no marker before it from there, and none found means none lies ahead |
| Day06.FirstMarkerFrom | 6/src/main.rs:11-32 | a marker found from a position lies after it, within the stream, and at least 4 from the start |
| Day06.MarkerAt | 6/src/main.rs:14-27 | a position ends a marker exactly when it has three predecessors and the four-character window has no repeat |
| Day06.Window | 6/src/main.rs:9-18 | the window at a position is the four characters ending there |
| Day07.ParseCd | 7/src/main.rs:29-31 | a chunk of at least four characters becomes a cd to the text between "cd " and the final character; shorter chunks are None (the slice panic) |
| Day07.ParseLsOutFile | 7/src/main.rs:37-46 | a file entry exactly when the line has two words and the first is a `u32`; the name is the second word |
| Day07.ParseListOutput | 7/src/main.rs:48-53 | lines starting "dir" are directories named after the fourth character, all other lines go to the file parser; lines under three characters are None |
| Day07.ParseLs | 7/src/main.rs:55-64 | one entry per non-empty line after the first, None exactly when one of them fails |
| Day07.ParseCommand | 7/src/main.rs:66-72 | only chunks starting "cd" or "ls" parse, the former to a cd and the latter to a listing; others are the `todo!` panic |
| Day07.ParseInput | 7/src/main.rs:74-76 | one command per chunk after the first "$ ", None exactly when some chunk fails |
| Day07.ParseEntryLine | 7/src/main.rs:48-53 | every printable listing line parses back to its entry |
| Day07.ParseCommandChunk | 7/src/main.rs:66-72 | every printable command's chunk parses back to the command |
| Day07.ParseRenderSession | 7/src/main.rs:74-76 | a printed terminal session parses back to its commands in order |
| Day07.ListToFileSystem | 7/src/main.rs:95-103 | one node per listed entry, in order: an empty directory for each dir line, a file of the listed size for each file line |
| Day07.Replace | 7/src/main.rs:78-93 | a node keeps its name and kind; files are untouched and no directory gains or loses children except the one the path names |
| Day07.SetAtPath | 7/src/main.rs:78-93 | the update panics (None) exactly on a directory with an empty path |
| Day07.ReplaceSets | 7/src/main.rs:78-93 | after the update every directory the path names holds exactly the new children |
| Day07.ReplaceUnmatched | 7/src/main.rs:78-93 | a path naming no directory leaves the tree unchanged |
| Day07.ReplaceSame | 7/src/main.rs:78-93 | setting children a directory already has changes nothing |
| Day07.ReplaceTwice | 7/src/main.rs:78-93 | a second update at the same path overrides the first |
| Day07.Step | 7/src/main.rs:121-134 | cd never changes the tree; a listing panics exactly at an empty path under the root directory and otherwise sets the children at the current path |
| Day07.RunStopsAtPanic | 7/src/main.rs:117-137 | once a command panics the whole build panics |
| Day07.RootStaysRoot | 7/src/main.rs:117-137 | a successful build's root is still the directory named "/" |
| Day07.ListFirstPanics | 7/src/main.rs:117-137 | a session that lists before any cd panics |
| Day07.BuildFilesystem | 7/src/main.rs:117-137 | the command loop builds exactly the tree the fold of `Step` over the commands gives |
| Day07.DirectorySizeIsFileTotal | 7/src/main.rs:151-156 | a directory's size is the sum of the sizes of all files below it |
| Day07.AllDirectories | 7/src/main.rs:139-149 | a file has no directories; a directory's list starts with the directory itself |
| Day07.AllDirectoriesAreSubtrees | 7/src/main.rs:139-149 | the list holds exactly the directories that are subtrees of the root |
| Day07.AtMost | 7/src/main.rs:163 | the filter keeps exactly the sizes of at most the limit |
| Day07.SumDirectorySize | 7/src/main.rs:158-165 | the answer lies between 0 and 100000 times the number of directories |
| Day07.ExampleBuild | 7/src/main.rs:250-256 | the test commands build the test tree |
| Day07.ExampleSizes | 7/src/main.rs:151-156 | in the test tree e is 584, a is 94853, d is 24933642 and / is 48381165 |
| Day07.ExampleSumDirectorySize | 7/src/main.rs:258-264 | the test tree's small directories sum to 95437 |
| Day07.ExampleSessionReadsBack | 7/src/main.rs:211-217 | the session printed from the test commands parses back to them |
| Day07.ParseDirLine | 7/src/main.rs:33-35 | a rendered `dir` line parses back to that directory entry |
| Day07.ParseFileLine | 7/src/main.rs:37-46 | a rendered file line parses back to that file entry |
| Day07.ParseCdChunk | 7/src/main.rs:66-72 | a rendered `cd` command parses back to that command |
| Day07.ParseLsChunk | 7/src/main.rs:55-64 | a rendered `ls` command with its output parses back to that command |
| Day07.ListedEntryLines | 7/src/main.rs:55-64 | the listed lines of an `ls` chunk are its entries' lines, in order |
| Day07.RunSnoc | 7/src/main.rs:117-137 | running one more command continues from the state reached by the commands before it |
| Day07.DirectorySize | 7/src/main.rs:151-156 | a directory's size is never negative; DirectorySizeIsFileTotal gives its meaning |
| Day07.ExampleDirectories | 7/src/main.rs:139-149 | the example's directories are /, a, e and d, in that order |
| Day08.ParseHeight | 8/src/main.rs:11-18 | a character parses exactly when it is a digit, to that digit's value |
| Day08.ParseRow | 8/src/main.rs:11-18 | a row parses exactly when every character is a digit, one height per character in order |
| Day08.ParseInput | 8/src/main.rs:20-27 | a grid is one row per non-empty line, each that line's row, at least one row, all of the same width |
| Day08.ParseRenderRow | 8/src/main.rs:11-18 | every row of single-digit heights parses back from its digits |
| Day08.ParseRenderGrid | 8/src/main.rs:20-27 | every rectangular digit grid parses back from its lines |
| Day08.EdgeTreesAreVisible | 8/src/main.rs:96-112 | every tree on the edge of the grid is visible |
| Day08.RollingMax | 8/src/main.rs:41-48 | the running-maximum pass marks exactly the cells taller than every earlier cell of their column |
| Day08.RowsDownwards | 8/src/main.rs:29-55 | the downward row-wise pass marks exactly the trees visible from the top |
| Day08.RowsUpwards | 8/src/main.rs:34-52 | the row-wise pass over the reversed rows marks exactly the trees visible from the bottom |
| Day08.RollingMaxRowwise | 8/src/main.rs:29-55 | the row-wise map has the grid's shape and marks the trees visible from above (downwards) or below (upwards) |
| Day08.ColumnsRightwards | 8/src/main.rs:57-83 | the column-wise pass marks exactly the trees visible from the left |
| Day08.ColumnsLeftwards | 8/src/main.rs:62-80 | the column-wise pass over the reversed columns marks exactly the trees visible from the right |
| Day08.RollingMaxColwise | 8/src/main.rs:57-83 | the column-wise map has the grid's shape and marks the trees visible from the left (downwards) or the right (upwards) |
| Day08.VisibilityMap | 8/src/main.rs:96-109 | the combined map marks exactly the trees visible from some side |
| Day08.GetVisibleTrees | 8/src/main.rs:96-112 | the count is the number of trees visible from some side |
| Day08.VisibleAtMostAll | 8/src/main.rs:96-112 | no more trees are visible than the grid holds |
| Day08.ViewingDistance | 8/src/main.rs:114-136 | the distance counts the shorter trees up to and including the first tree at least as tall, or all trees when none is |
| Day08.ViewingDistanceIsFirstBlock | 8/src/main.rs:127-133 | the view stops at the first tree at least as tall |
| Day08.CountVisibleTrees | 8/src/main.rs:114-136 | the loop, forwards or reversed, returns the viewing distance along the slice in that direction |
| Day08.EdgeScoreIsZero | 8/src/main.rs:138-150 | a tree on the edge has scenic score 0 |
| Day08.ScenicScoreBound | 8/src/main.rs:138-150 | a scenic score is at most the product of the distances to the four edges |
| Day08.ScenicScore | 8/src/main.rs:138-150 | the scenic score is never negative |
| Day08.ScenicScores | 8/src/main.rs:152-154 | each cell of the map is the scenic score of its own tree |
| Day08.ExampleScenicScoreOne | 8/src/main.rs:259-264 | the test tree at row 1, column 2 scores 4 |
| Day08.ExampleScenicScoreTwo | 8/src/main.rs:266-268 | the test tree at row 3, column 2 scores 8 |
| Day08.AllShorter | 8/src/main.rs:44 | the result is true exactly when every tree of the list is shorter than the given height |
| Day08.Columns | 8/src/main.rs:62-66 | the columns of a rectangular grid, one per column index |
| Day08.FromColumns | 8/src/main.rs:82 | rebuilding a grid from columns puts column j's entry i at row i, column j |
| Day08.UpwardsSeen | 8/src/main.rs:34-52 | a tree taller than every tree before it in the reversed rows is visible from the bottom |
| Day08.SeenUpwards | 8/src/main.rs:34-52 | a tree visible from the bottom is taller than every tree before it in the reversed rows |
| Day08.LeftwardsSeen | 8/src/main.rs:62-80 | a tree taller than every tree before it in the reversed columns is visible from the right |
| Day08.LeftwardsVisible | 8/src/main.rs:62-80 | a tree visible from the right is taller than every tree before it in the reversed columns |
| Day08.CountRow | 8/src/main.rs:106-111 | a row never counts more visible trees than it has trees |
| Day09.ParseMotion | 9/src/main.rs:28-40 | a motion's direction is given by the first word (R, U, L, D, each an if-and-only-if) and its distance is an `i16`; anything else is None |
| Day09.ParseMotions | 9/src/main.rs:42-48 | one motion per non-empty line, None exactly when some line fails |
| Day09.ParseMotionLine | 9/src/main.rs:28-40 | every motion with an `i16` distance parses back from its line |
| Day09.ParseMotionLines | 9/src/main.rs:42-48 | a newline-terminated list of motions parses back to the same motions |
| Day09.MoveTail | 9/src/main.rs:58-78 | the tail moves at most one place on each axis, and stays exactly when it already touches the head |
| Day09.MoveTailCatchesUp | 9/src/main.rs:58-78 | a tail at most two places away ends up touching the head, each coordinate moving toward the head's and never past it |
| Day09.MoveTailFarInLine | 9/src/main.rs:62-77 | three places away in line, the rule steps the tail diagonally off the line |
| Day09.StepsMoveHead | 9/src/main.rs:87-91 | after n steps the head has moved n places in the motion's direction |
| Day09.StepsKeepTouching | 9/src/main.rs:87-91 | a rope whose knots touch keeps touching after every step |
| Day09.StepsRecord | 9/src/main.rs:87-91 | the recorded set only grows, by at most one place per step, and holds the tail's final place |
| Day09.RunMotionRecords | 9/src/main.rs:80-103 | a motion records the tail's start and end places and adds at most one place per step after the start |
| Day09.Rope.constructor | 9/src/main.rs:50-56 | the initial state has both knots at the origin and nothing recorded |
| Day09.Rope.MoveHead | 9/src/main.rs:80-94 | the loop updates the rope's fields to the state `MoveHeadSpec` gives, running no step for a distance of zero or less |
| Day09.Rope.RunMotion | 9/src/main.rs:96-103 | a motion moves the head in its direction by its distance |
| Day09.ExampleParse | 9/src/main.rs:120-135 | the test text parses to the eight test motions |
| Day09.ExampleDirectMotions | 9/src/main.rs:137-167 | the two motions in line from the test give the expected heads, tails and visited sets |
| Day09.ExampleDiagonalMotions | 9/src/main.rs:169-200 | the two diagonal test motions give the expected heads, tails and visited sets |
| Day09.Step | 9/src/main.rs:87-91 | one head step adds the tail's new position to the visited set and keeps every position visited so far |
| Day10.ParseInstruction | 10/src/main.rs:18-25 | "noop" is NoOp; any other line is AddX of its second word exactly when that word is an `i32`, whatever the first word is |
| Day10.AnyWordAdds | 10/src/main.rs:18-25 | the first word of a non-noop line is never checked: "subx 3" reads as AddX(3) |
| Day10.ParseProgram | 10/src/main.rs:27-33 | one instruction per non-empty line, None exactly when some line fails |
| Day10.ParseInstructionLine | 10/src/main.rs:18-25 | every printable instruction parses back from its line |
| Day10.ParseProgramLines | 10/src/main.rs:27-33 | a newline-terminated program text parses back to the program |
| Day10.ExampleParse | 10/src/main.rs:111-121 | the test text parses to noop, addx 3, addx -5 |
| Day10.IncrementClock | 10/src/main.rs:35-55 | one tick advances the clock by one, records the strength exactly on a signal cycle and draws that cycle's pixel |
| Day10.RunProgram | 10/src/main.rs:57-77 | the strengths and the pixels are those of the register's value during each cycle of the program |
| Day10.RegisterDuringStep | 10/src/main.rs:63-70 | an addx holds X for two cycles and then adds its operand; a noop holds X for one cycle |
| Day10.RegisterAfterIsSum | 10/src/main.rs:60-67 | X at the end is 1 plus the sum of all addx operands |
| Day10.RegisterDuringPrefix | 10/src/main.rs:63-74 | running more instructions only extends the register's history |
| Day10.RegisterTiming | 10/src/main.rs:63-70 | instruction n starts at the cycle after all earlier instructions' cycles, with the X they left |
| Day10.CrtLength | 10/src/main.rs:57-77 | one pixel is drawn per cycle: one per noop, two per addx |
| Day10.SignalCycles | 10/src/main.rs:43 | with Rust's truncating remainder, strengths are recorded exactly at cycles 20, 60, 100, … |
| Day10.SignalsListed | 10/src/main.rs:43-45 | the k-th strength is cycle (20 + 40k) times X during that cycle |
| Day10.PixelLitAt | 10/src/main.rs:50-54 | a pixel is lit exactly when the drawn column (cycle % 40) - 1 is within one of X |
| Day10.DisplayCrt | 10/src/main.rs:79-91 | the display holds every pixel and one newline per row of 40 |
| Day10.DisplayCrtPixels | 10/src/main.rs:79-91 | pixel k is drawn as '#' or '.' in row k / 40 after that row's newline, and every row begins with a newline |
| Day10.RegisterDuring | 10/src/main.rs:57-77 | the register value during each cycle, one entry per cycle the program takes |
| Day10.Screen | 10/src/main.rs:50-54 | the crt has one pixel per cycle, lit exactly when the sprite covers that cycle's column |
| Day10.SignalsSnoc | 10/src/main.rs:43-45 | one more cycle adds just its own signal strength, when it is a sampled cycle, after the earlier ones |
| Day10.ScreenSnoc | 10/src/main.rs:50-54 | one more cycle appends just its own pixel to the crt |
| Day10.DisplayCrtPixel | 10/src/main.rs:79-91 | each pixel of the crt appears in the display at its row and column, as '#' when lit and '.' when dark |
| Day10.DisplayCrtRowStart | 10/src/main.rs:79-91 | the display puts a newline before each row of forty pixels |
| Day11.RunOperation | 11/src/main.rs:117-141 | the new worry level is the operation applied to the old one (X standing for the old level), and None exactly when that value does not fit a u64 |
| Day11.Inspect | 11/src/main.rs:153-170 | an inspection succeeds exactly when the operation fits a u64 and the divisors are non-zero; the worry is divided by 3 in part 1 and reduced modulo the divisor in part 2, and the item goes to the true target exactly when the new worry is divisible by the test value |
| Day11.Throws | 11/src/main.rs:153-171 | draining the queue yields one throw per item, in queue order, each the inspection of that item; None exactly when some inspection panics |
| Day11.ModValue | 11/src/main.rs:190-193 | the part-2 divisor is the product of all test values, and None exactly when that product reaches 2^64 |
| Day11.Inspections | 11/src/main.rs:205-214 | the inspection counts listed by monkey id |
| Day11.TopTwo | 11/src/main.rs:219-221 | two distinct positions whose values are the largest two: every other value is at most the smaller |
| Day11.MonkeyBusiness | 11/src/main.rs:219-222 | the product of the two largest counts (1 for no monkeys, the only count for one) |
| Day11.Troop.constructor | 11/src/main.rs:217 | the troop starts as the parsed monkeys |
| Day11.Troop.PushThrows | 11/src/main.rs:173-175 | appending the queued throws to their targets leaves the troop as the delivery specification says, and fails exactly when a target is missing |
| Day11.Troop.TakeTurn | 11/src/main.rs:143-176 | one turn leaves the troop as the turn specification says, and fails exactly when it panics |
| Day11.Troop.RunRound | 11/src/main.rs:178-187 | every monkey takes its turn in id order, matching the round specification |
| Day11.Troop.RunRounds | 11/src/main.rs:189-203 | the requested number of rounds with the test-value product as divisor, matching the run specification |
| Day11.Troop.GetInspections | 11/src/main.rs:205-214 | the counts by monkey id of the current troop |
| Day11.DrainQueue | 11/src/main.rs:153-171 | the loop that pops the queue produces exactly the throws of the whole queue and the drained monkey, with one more inspection per item |
| Day11.GetMonkeyBusiness | 11/src/main.rs:216-223 | the monkey business after the rounds, and None exactly when the run panics |
| Day11.NoThrowsPastPanic | 11/src/main.rs:153-171 | one panicking inspection makes the whole turn panic |
| Day11.TurnsStopAtPanic | 11/src/main.rs:183-185 | once a turn panics the round panics |
| Day11.RoundsStopAtPanic | 11/src/main.rs:195-202 | once a round panics every longer run panics |
| Day11.DeliverAppends | 11/src/main.rs:173-175 | delivery appends to each monkey exactly the throws aimed at it, in throw order, and changes nothing else |
| Day11.DeliveredTargets | 11/src/main.rs:173-175 | a successful delivery only sent items to existing monkeys |
| Day11.DeliverCounts | 11/src/main.rs:173-175 | delivering throws adds exactly one item per throw to the troop |
| Day11.TurnConserves | 11/src/main.rs:143-176 | a turn neither creates nor loses items |
| Day11.RoundsConserve | 11/src/main.rs:189-203 | any number of rounds keeps the total number of items |
| Day11.TurnEmptiesQueue | 11/src/main.rs:153-175 | after its turn the active monkey's inspections grew by the number of items it held, and its queue holds only the items thrown back to itself; every other monkey's queue only grew at the end |
| Day11.ReduceKeepsTest | 11/src/main.rs:161-164 | reducing modulo a multiple of a test value keeps that test's outcome |
| Day11.TestValueDividesProduct | 11/src/main.rs:190-193 | every monkey's test value divides the product of all test values |
| Day11.OperationModulo | 11/src/main.rs:136-141 | applying the operation commutes with reducing modulo any divisor, which makes part 2's reduction sound |
| Day11.ExampleInspectAdd | 11/src/main.rs:259-268 | the second example monkey sends item 54 to monkey 0 with worry 20 in part 1 |
| Day11.ExampleInspectSquare | 11/src/main.rs:269-280 | the third example monkey sends item 79 to monkey 1 with worry 2080 in part 1 |
| Day11.ExampleInspectReduced | 11/src/main.rs:269-280 | in part 2 with the example's test-value product the same item goes to monkey 3 with worry 6241 |
| Day11.ExampleMonkeyBusiness | 11/src/main.rs:216-222 | the counts 101, 95, 7, 105 give monkey business 10605 |
| Day11.ThrowsStep | 11/src/main.rs:153-171 | inspecting one more item adds exactly its throw, after the throws of the items before it |
| Day11.Deliver | 11/src/main.rs:173-175 | delivering throws keeps the number of monkeys; DeliverAppends says where each item lands |
| Day11.TurnSpec | 11/src/main.rs:143-176 | a monkey's turn keeps the number of monkeys; TurnEmptiesQueue and TurnConserves say what it does |
| Day11.TurnsSpec | 11/src/main.rs:178-187 | running the first n turns of a round keeps the number of monkeys |
| Day11.RoundSpec | 11/src/main.rs:178-187 | a round keeps the number of monkeys |
| Day11.RoundsSpec | 11/src/main.rs:189-203 | running rounds keeps the number of monkeys; RoundsConserve keeps the number of items |
| Day11.DeliverStopsAtPanic | 11/src/main.rs:173-175 | a throw to a monkey index that does not exist makes the delivery fail, as the source's index panics |
| Day11.AfterPanicTurn | 11/src/main.rs:183-185 | once a turn fails, every longer run of turns fails too |
| Day11.AfterPanicRound | 11/src/main.rs:195-202 | once a round fails, every longer run of rounds fails too |
| Day11.TurnsConserve | 11/src/main.rs:178-187 | turns that succeed keep the total number of items the monkeys hold |
| Day12.ConvertToElevation | 12/src/main.rs:50-58 | a to z are elevations 0 to 25, S is 0 and E is 25, and every other character panics (None) |
| Day12.ConvertLetter | 12/src/main.rs:50-58 | every elevation 0 to 25 has a lower-case letter that converts back to it |
| Day12.IndexToPoint | 12/src/main.rs:60-64 | the index of a column-major layout split into a column and a row below the row count; a row count of zero panics (None) |
| Day12.IndexToPointInverse | 12/src/main.rs:60-64 | reading a point's column-major index back gives the point |
| Day12.NextStepsAreSteps | 12/src/main.rs:104-138 | the kept neighbours are exactly the adjacent points inside the map at most one level higher, at most four of them |
| Day12.NextSteps | 12/src/main.rs:104-138 | at most four neighbours, every one an allowed step |
| Day12.GetNextSteps | 12/src/main.rs:104-138 | the loop over the four candidates yields the neighbours in up, down, left, right order |
| Day12.WalkExtend | 12/src/main.rs:176-187 | a walk followed by one allowed step is a walk one step longer |
| Day12.NegatedStep | 12/src/main.rs:217 | on the negated map a step is allowed exactly when the reverse step is allowed on the original |
| Day12.NegateNegate | 12/src/main.rs:217 | negating twice gives the map back |
| Day12.ReversedWalk | 12/src/main.rs:217 | a walk on the map, reversed, is a walk of the same length on the negated map |
| Day12.NegatedWalk | 12/src/main.rs:217 | a walk on the negated map, reversed, is a walk of the same length on the map |
| Day12.Unreached | 12/src/main.rs:140-150 | the starting table has one entry per point, each `u32::MAX` |
| Day12.GetAllPoints | 12/src/main.rs:140-150 | the nested loops build that table |
| Day12.GreatestIndex | 12/src/main.rs:30-43 | the popped entry is a greatest by the heap order: no entry has a lower cost, or the same cost and a greater point |
| Day12.TotalDecrease | 12/src/main.rs:183-187 | lowering a distance lowers the sum of the table, which bounds the search's iterations |
| Day12.RelaxDistance | 12/src/main.rs:183-187 | a distance lowered to the length of a real walk keeps every distance the length of a walk |
| Day12.PoppedShortest | 12/src/main.rs:165-174 | a popped point whose distance is settled has the shortest walk: no walk to it is shorter |
| Day12.AllShortest | 12/src/main.rs:189-191 | once the queue is empty every point's distance is the shortest walk length (or `u32::MAX` when there is none shorter) |
| Day12.Pop | 12/src/main.rs:165 | the pop removes one greatest entry, keeps the rest, and its point is settled at the shortest distance |
| Day12.RelaxEdge | 12/src/main.rs:176-187 | relaxing one neighbour keeps the search invariant and, when it queues a state, lowers the table |
| Day12.RelaxEdges | 12/src/main.rs:176-188 | relaxing all neighbours of the popped point keeps every distance a walk length and every queued state a real walk |
| Day12.Dijkstras | 12/src/main.rs:152-192 | a start outside the map panics (None); otherwise every reported distance is at most `u32::MAX`, every finite one is the length of a walk, and no walk is shorter, for every point without a stop point and for the stop point with one |
| Day12.FindShortestPath | 12/src/main.rs:194-199 | the answer exists exactly when the start and end are in the map; it is the length of a walk from start to end and no walk is shorter (`u32::MAX` when there is no walk) |
| Day12.StartPoints | 12/src/main.rs:201-213 | the collected points are exactly the points of elevation 1 |
| Day12.GetStartPoints | 12/src/main.rs:201-213 | the nested loops collect them column by column, each column top to bottom |
| Day12.NegatedDistance | 12/src/main.rs:217 | a finite distance of the search on the negated map from the end is the length of a walk up from that point to the end |
| Day12.LeastDistance | 12/src/main.rs:218-221 | the least of one more than each start point's distance; None for no points or an unreached point, whose `u32::MAX + 1` overflows |
| Day12.FindSingleDestinationShortestPath | 12/src/main.rs:215-222 | the answer is one more than the length of a walk from some point of elevation 1 to the end, and no walk from any such point is shorter |
| Day12.StepsFrom | 12/src/main.rs:104-138 | the candidate steps from a point are exactly its in-bounds neighbours, in the source's order, within one elevation rise |
| Day12.ReversedIsWalk | 12/src/main.rs:217 | a walk read backwards is a walk on the negated map |
| Day12.RelaxStep | 12/src/main.rs:183-187 | lowering one distance to the cost of a real walk keeps every recorded distance sound and lowers the total |
| Day12.PopQueue | 12/src/main.rs:165 | taking any state out of the heap keeps every remaining state's cost that of a real walk |
| Day12.WalkBound | 12/src/main.rs:165-189 | for any walk from the start, either its end's recorded distance is at most the walk's length or a state cheaper than that length is still in the heap |
| Day12.StartSettled | 12/src/main.rs:153-161 | the start at distance 0, every other point unreached, and a heap holding only the start satisfy the search invariants |
| Day12.StartPointsMembers | 12/src/main.rs:201-213 | the start points are exactly the points of elevation 1, the letter b |
| Day13.CompareReflexive | 13/src/main.rs:11-59 | every packet compares `Equal` to itself |
| Day13.Compare | 13/src/main.rs:11-59 | two integers compare equal exactly when they are the same number; equal lists have equal lengths; an integer equals a list only when the list has one item |
| Day13.CompareAntisymmetric | 13/src/main.rs:11-59 | swapping the packets reverses the ordering |
| Day13.CompareListAntisymmetric | 13/src/main.rs:13-48 | swapping the lists reverses the ordering |
| Day13.CompareList | 13/src/main.rs:13-48 | equal lists have equal lengths; a non-empty list is greater than the empty list and the empty list less than a non-empty one |
| Day13.IntegerAsSingleton | 13/src/main.rs:55-56 | an integer compares, on either side, exactly as the one-element list holding it |
| Day13.CompareListCommonPrefix | 13/src/main.rs:17-27 | a common prefix does not affect the ordering of two lists |
| Day13.PrefixIsLess | 13/src/main.rs:29-44 | a list is `Less` than any strictly longer list it is a prefix of |
| Day13.FirstDiffers | 13/src/main.rs:17-27 | after a common prefix the first pair of elements that is not `Equal` decides |
| Day13.PartialCmp | 13/src/main.rs:11-59 | `partial_cmp` always answers, with the lexicographic packet ordering |
| Day13.PartialCmpList | 13/src/main.rs:13-48 | the loop over both lists returns the first ordering that is not `Equal`, else the length comparison |
| Day13.CorrectPairsSumBound | 13/src/main.rs:128-140 | the sum is at most 1 + 2 + ... + n, and equals it exactly when every pair is ordered |
| Day13.CorrectPairsSumAppend | 13/src/main.rs:131-137 | a pair in order adds its 1-based index to the sum, any other pair adds nothing |
| Day13.GetNumberOfCorrectPairs | 13/src/main.rs:128-140 | the loop sums the 1-based indices of exactly the pairs whose left packet is `Less` |
| Day13.ExampleOrderingsFirst | 13/src/main.rs:157-198 | the example's first four pairs are Less, Less, Greater, Less |
| Day13.ExampleOrderingsLast | 13/src/main.rs:199-240 | the example's last four pairs are Greater, Less, Greater, Greater |
| Day13.ExampleCorrectPairs | 13/src/main.rs:251-258 | the example pairs give 13 |
| Day13.StepLevel | 13/src/main.rs:79-88 | `[` raises the `u8` level and `]` lowers it, each panicking (None) when the level would leave 0 to 255; any other character keeps it |
| Day13.Splits | 13/src/main.rs:76-95 | at least two split indices, all inside the input; None when the level loop panics or the input is empty |
| Day13.Items | 13/src/main.rs:97-113 | one item per pair of consecutive split indices, each the text strictly between them; None exactly when a slice would run backwards |
| Day13.Parse | 13/src/main.rs:66-117 | a `u16` numeral is that integer, `[]` the empty list, the empty text panics (None) |
| Day13.ParseItemFails | 13/src/main.rs:115 | a list with an item that fails to parse fails to parse |
| Day13.ParseItemsSucceed | 13/src/main.rs:115-116 | a list whose items all parse is the list of their packets |
| Day13.SplitIndices | 13/src/main.rs:76-95 | the level loop collects exactly the split indices of the text |
| Day13.LevelStaysNone | 13/src/main.rs:79-88 | once the level loop panics, more text does not rescue it |
| Day13.ItemStrings | 13/src/main.rs:97-113 | the slicing loop produces exactly the items between the split indices |
| Day13.ParsePacket | 13/src/main.rs:66-117 | the recursive parser computes the parse function, panics included |
| Day13.RenderItemsLevels | 13/src/main.rs:79-93 | reading the text of a list's items returns to the starting level, and at level 1 the commas found are exactly the separators between the items |
| Day13.SplitsOfRendered | 13/src/main.rs:76-95 | the split indices of a printed non-empty list are the positions just before each item and the final bracket |
| Day13.ItemsOfRendered | 13/src/main.rs:97-113 | the items cut from a printed non-empty list are the printed items |
| Day13.ParseRender | 13/src/main.rs:66-117 | round trip: every packet whose integers fit `u16` and whose nesting fits the `u8` level parses back from its text |
| Day13.CompareListReflexive | 13/src/main.rs:13-48 | a list compared with itself compares Equal |
| Day13.Render | 13/src/main.rs:66-117 | writing a packet back as text gives a non-empty text; ParseRender proves that it parses back |
| Day13.CommasFrom | 13/src/main.rs:76-95 | the split positions are positions of commas, in increasing order |
| Day13.LevelConcat | 13/src/main.rs:79-88 | the bracket depth after two texts is the depth after the first, continued over the second |
| Day13.CommasConcat | 13/src/main.rs:76-95 | the split commas of two texts are those of the first, then those of the second shifted by the first's length |
| Day13.ItemSlices | 13/src/main.rs:97-113 | the cut positions of a rendered list slice out each item's own text |
| Day14.RockWall | 14/src/main.rs:24-40 | rock on exactly the points of the inclusive rectangle between the two corners |
| Day14.CreateRockWall | 14/src/main.rs:24-40 | the nested loops fill exactly that rectangle, and panic (None) where `max + 1` overflows u32 |
| Day14.WallEnds | 14/src/main.rs:27-31 | both corners are rock, and the wall does not depend on the order of the corners |
| Day14.UnionAllFails | 14/src/main.rs:56-60 | one failing wall makes the whole path fail |
| Day14.UnionAllHas | 14/src/main.rs:56-60 | a merged cave holds exactly the points of its parts, all rock when the parts are |
| Day14.RockPath | 14/src/main.rs:52-63 | a path's rock exists exactly when every wall between consecutive points fits u32 |
| Day14.RockPathHas | 14/src/main.rs:52-63 | a path's rock is exactly the points of the rectangles between consecutive points, all rock |
| Day14.ParsePath | 14/src/main.rs:42-53 | one point per " -> " piece, each the parse of that piece |
| Day14.ParsePoint | 14/src/main.rs:42-50 | a point exists exactly when there are two comma-separated pieces that are both `u32` numerals, and its coordinates are those numerals |
| Day14.ParseRockPath | 14/src/main.rs:52-63 | reading a line and merging its walls gives that line's rock |
| Day14.MergeWalls | 14/src/main.rs:56-60 | the loop inserting every wall in order gives the path's rock |
| Day14.ParseCave | 14/src/main.rs:65-73 | one path per line, all merged into one cave |
| Day14.EmptyLinePanics | 14/src/main.rs:42-45 | an empty line is no path: `parse_point` panics on it |
| Day14.PointTextReadsBack | 14/src/main.rs:42-50 | a point printed as "x,y" reads back as that point |
| Day14.PathTextReadsBack | 14/src/main.rs:52-63 | a path printed with " -> " reads back as that path, and its rock is the path's rock |
| Day14.ParseCaveText | 14/src/main.rs:65-73 | the cave read from printed paths is the union of their rock |
| Day14.CaveOfHas | 14/src/main.rs:65-73 | the cave of the paths holds exactly the points on their segments, all rock |
| Day14.BoundsExist | 14/src/main.rs:76-78 | every non-empty cave has its extent: least and greatest x and greatest y |
| Day14.BoundsUnique | 14/src/main.rs:76-78 | that extent is unique |
| Day14.GetBounds | 14/src/main.rs:76-78 | the min and max scans compute the extent |
| Day14.DropFrom | 14/src/main.rs:83-122 | a grain that rests lies within the x range above the lowest rock, on three occupied points, and is either the start or a free point lower than it |
| Day14.FreeShrinks | 14/src/main.rs:120 | each grain stored on a free point shrinks the room left, which bounds the pour |
| Day14.DropGrain | 14/src/main.rs:83-122 | the inner loop follows one grain down, left and right until it rests, leaves the extent, or the u32 arithmetic panics |
| Day14.StartSandFall | 14/src/main.rs:75-124 | the whole pour: it returns when a grain leaves the extent, panics on an empty cave or at the u32 edges, and never returns once a grain rests on the start |
| Day14.CountSand | 14/src/main.rs:126-133 | the number of sand tiles, none in a cave of rock |
| Day14.CountSandInsert | 14/src/main.rs:120 | storing sand on a free point adds one to the count |
| Day14.PourKeeps | 14/src/main.rs:80-123 | a pour that returns never removes or changes a tile |
| Day14.PourAdds | 14/src/main.rs:80-123 | every tile a returning pour adds is sand, inside the extent and resting on three occupied points |
| Day14.SandCountIsGrains | 14/src/main.rs:135-140 | after a returning pour over rock, the sand counted is exactly the number of new tiles, the grains that came to rest |
| Day14.ExampleCave | 14/src/main.rs:150-177 | the example's two paths give exactly the twenty rock tiles the parser test lists |
| Day14.LedgePour | 14/src/main.rs:75-124 | on a three-rock ledge one grain rests and the next one leaves the extent |
| Day14.LowLedgeNeverEnds | 14/src/main.rs:80-123 | with the ledge just under the start every grain rests on the start and the pour never returns |
| Day14.UnionAll | 14/src/main.rs:56-60 | merging paths succeeds exactly when every path succeeded |
| Day14.Walls | 14/src/main.rs:52-63 | a path of n points has n-1 walls, each between consecutive points |
| Day14.CaveTextLines | 14/src/main.rs:65-73 | splitting a rendered cave at newlines gives back each path's text |
| Day14.CaveBounds | 14/src/main.rs:76-78 | the bounds found are the minimum and maximum x and the maximum y of the cave's points |
| Day14.Box | 14/src/main.rs:83-122 | the points where a grain can stop: inside the x range and above the lowest rock |
| Day14.PourCounts | 14/src/main.rs:126-133 | pouring adds one grain of sand for each new tile |
| Day14.TwoPaths | 14/src/main.rs:65-73 | a two-path cave is all rock, and its points are those of both paths |
| Day15.ManhattanIsMetric | 15/src/main.rs:88-90 | the Manhattan distance is a metric: non-negative, symmetric, zero exactly on equal points, and obeys the triangle inequality |
| Day15.ManhattanDistance | 15/src/main.rs:88-90 | the distance is never negative and is zero only from a point to itself |
| Day15.CompareRangeIsTotalOrder | 15/src/main.rs:23-49 | the end-point order is total and antisymmetric, only identical end points are `Equal`, and it orders by coordinate with an opening end point first on a tie |
| Day15.CompareRange | 15/src/main.rs:23-49 | equal exactly for the same bound; less exactly for a smaller coordinate, or the same coordinate with the start before the end |
| Day15.InsertRange | 15/src/main.rs:93 | inserting into a sorted sequence keeps it sorted and adds exactly that element |
| Day15.SortRanges | 15/src/main.rs:93 | the sort returns a sorted permutation of the end points |
| Day15.SortedUnique | 15/src/main.rs:93 | a sorted permutation is unique, so any sort gives the same order |
| Day15.SortKeepsDepth | 15/src/main.rs:93 | sorting does not change how many intervals are open at any position |
| Day15.PrefixHeightNonNegative | 15/src/main.rs:100-113 | in the sorted order no prefix closes more intervals than it opened, so the sweep never pops an empty stack |
| Day15.SweepShape | 15/src/main.rs:100-113 | after each prefix the stack holds one minimum per open interval and each merged interval runs from the minimum opening a stretch of positive depth to the maximum closing it |
| Day15.SweepStaysFailed | 15/src/main.rs:106 | once a pop panics the whole sweep fails |
| Day15.GetNonOverlappingRanges | 15/src/main.rs:92-118 | the sort-and-sweep loop computes the merge, with None where `stack.pop().unwrap()` panics |
| Day15.EventsDepth | 15/src/main.rs:170-171 | the number of intervals open at a position after the pushed end points is the number of intervals covering it |
| Day15.MergeOrdered | 15/src/main.rs:92-118 | the merged intervals of well-formed intervals exist and are non-empty, ascending and not touching |
| Day15.MergeCovers | 15/src/main.rs:92-118 | the merged intervals cover exactly the positions the input intervals cover |
| Day15.MergeKeepsCover | 15/src/main.rs:92-118 | merging never panics on well-formed intervals, and yields separated intervals with the same cover |
| Day15.WidthCounts | 15/src/main.rs:123-126 | the summed widths of separated intervals count exactly the positions they cover |
| Day15.SensorSpanMeaning | 15/src/main.rs:147-171 | a report contributes an interval exactly when its reach on the row is positive, and that interval is the part of the row within the sensor's reach |
| Day15.ReachSpanMeaning | 15/src/main.rs:147-171 | with the intended `x_min > x_max` test a report's interval is exactly the part of the row within its reach, a single position included |
| Day15.RowSpansCover | 15/src/main.rs:137-175 | the intervals pushed for a row cover exactly the positions within reach of a sensor whose reach on the row is positive |
| Day15.RowRanges | 15/src/main.rs:137-175 | the merged intervals of a row are separated and cover exactly those positions |
| Day15.BuildNonOverlappingRanges | 15/src/main.rs:137-175 | the loop over the reports pushes one interval per contributing report and merges them |
| Day15.BeaconsOnRow | 15/src/main.rs:128-132 | the distinct beacons whose row is the given one |
| Day15.GetNumNoBeacons | 15/src/main.rs:120-135 | the covered width minus the number of distinct beacons on the row |
| Day15.NoBeaconCountMeaning | 15/src/main.rs:120-135 | as written, the count is the number of positions in some pushed interval minus the number of distinct beacons on the row |
| Day15.NoBeaconPositions | 15/src/main.rs:141-144 | the positions where no beacon can be: within some sensor's reach and not a reported beacon |
| Day15.BeaconsAreReached | 15/src/main.rs:141-144 | every sensor reaches its own beacon, so the beacons on a row lie in the intended cover |
| Day15.FixedNoBeaconCountMeaning | 15/src/main.rs:120-175 | with the intended test the count is exactly the number of positions where no beacon can be |
| Day15.TouchingSensorMiscounts | 15/src/main.rs:155-157 | a sensor whose reach just touches the row at its own beacon is skipped while the beacon is still subtracted: the count is -1 |
| Day15.TouchingSensorFixedCount | 15/src/main.rs:155-157 | with the intended test the same report gives 0 |
| Day15.GetDistressBeacon | 15/src/main.rs:177-206 | the loop returns the first row below the limit that merges into several intervals, at the position after the first one, else (0, 0) |
| Day15.SeveralRangesIffGap | 15/src/main.rs:195-202 | a row merges into several intervals exactly when its covered positions have a hole between two covered ones |
| Day15.FirstGapIsHole | 15/src/main.rs:195-202 | the returned point is uncovered, its left neighbour and some position to its right are covered, and every earlier row is one stretch |
| Day15.NoGapMeansOneStretch | 15/src/main.rs:195-205 | when (0, 0) comes back for want of a gap every row searched is one stretch |
| Day15.TuningSignalDecodes | 15/src/main.rs:208-210 | for a row inside the search area the tuning signal determines the point |
| Day15.ExampleRowTenCover | 15/src/main.rs:228-287 | on row 10 the example's intervals cover exactly -2 to 24 |
| Day15.ExampleRowTenBeacons | 15/src/main.rs:228-287 | the only example beacon on row 10 is (2, 10) |
| Day15.ExampleRowTenCount | 15/src/main.rs:297-304 | the example's row 10 has 26 positions where no beacon can be |
| Day15.InsertLater | 15/src/main.rs:93 | inserting a range after the head keeps the list sorted and adds exactly that range |
| Day15.SortRangesStep | 15/src/main.rs:93 | sorting a list is inserting its last range into the sorted rest |
| Day15.EventsHeight | 15/src/main.rs:100-113 | the opening and closing events of any spans balance to height zero |
| Day15.CoverCount | 15/src/main.rs:170-171 | a column's open-span count is positive exactly when some span covers it |
| Day15.SortedSweep | 15/src/main.rs:92-118 | the sorted events sweep to an empty stack, with depths equal to the cover counts |
| Day15.CoverAt | 15/src/main.rs:92-118 | the merged ranges cover exactly the columns the spans cover |
| Day15.MergedNonEmpty | 15/src/main.rs:92-118 | every merged range is non-empty |
| Day15.SpanSet | 15/src/main.rs:123-126 | the set of columns the spans cover |
| Day15.ReachSpansCover | 15/src/main.rs:147-171 | a column is covered by the reach spans exactly when some sensor reaches it on the row |
| Day15.ReachRanges | 15/src/main.rs:137-175 | the merged reach ranges are separated and cover exactly the columns some sensor reaches |
| Day15.BeaconColumns | 15/src/main.rs:128-132 | the beacon columns are exactly the columns of the row's beacons, one each |
| Day15.PositionsAreCoveredButNotBeacons | 15/src/main.rs:141-144 | the positions without a beacon are the reached columns minus the beacon columns |
| Day15.TouchingSensorReachesOnlyItsBeacon | 15/src/main.rs:155-157 | a sensor one row from its beacon reaches only the beacon's column on that row, and the source's filter drops it |
| Day15.SeveralRangesHaveGap | 15/src/main.rs:195-202 | two or more merged ranges leave an uncovered column between two covered ones |
| Day15.GapSplitsRanges | 15/src/main.rs:195-202 | an uncovered column between two covered ones makes the merged ranges number more than one |
| Day16.PathBound | 16/src/main.rs:61-98 | no path from the source to a valve is shorter than its distance in a finished table |
| Day16.PathToValve | 16/src/main.rs:61-98 | every finite distance is the length of a real path from the source |
| Day16.ShortestDistancesUnique | 16/src/main.rs:61-98 | the finished table is determined by the tunnels and the source, whatever order the heap pops ties in |
| Day16.MinIndex | 16/src/main.rs:43-59 | the popped item has the least priority, as `Reverse` on the max-heap gives |
| Day16.InitialDistances | 16/src/main.rs:62-71 | the table starts with the source at 0 and every tunnel key at `u32::MAX` |
| Day16.RelaxNeighbours | 16/src/main.rs:83-94 | relaxing the neighbours of the popped valve keeps every distance the length of a path and queues every lowered valve |
| Day16.RelaxTunnel | 16/src/main.rs:84-93 | one neighbour relaxed; a neighbour without an entry panics (`unwrap`), which only a tunnel to an unknown valve causes |
| Day16.Finished | 16/src/main.rs:78-97 | once the heap is empty the table holds the shortest distances |
| Day16.Pop | 16/src/main.rs:78 | the pop removes one least-priority item and keeps the rest |
| Day16.Dijkstra | 16/src/main.rs:61-98 | the table holds the shortest unit-step distances from the source (`u32::MAX` for unreachable valves), and the run succeeds whenever every tunnel leads to a known valve and the source has tunnels |
| Day16.ExploreMeaning | 16/src/main.rs:100-137 | the search only raises answers, records every tour's final state with at least its flow, and every value it records is the flow of some tour: for each set of opened valves the best pressure over all opening orders |
| Day16.Search.constructor | 16/src/main.rs:179 | the search starts with no answers |
| Day16.Search.Visit | 16/src/main.rs:100-137 | the recursive visit updates the answers as the search specification says, failing exactly where `u32::MAX + 1` overflows |
| Day16.FollowOpensEachOnce | 16/src/main.rs:118 | a tour the bit test lets through opens each valve at most once, none already opened |
| Day16.BitsSeparate | 16/src/main.rs:173-177 | distinct bit positions below 16 give disjoint non-zero bits |
| Day16.Bitmap | 16/src/main.rs:173-177 | each kept valve gets the bit of its enumeration position |
| Day16.BitmapSeparate | 16/src/main.rs:173-177 | two kept valves' bits overlap exactly when they are the same valve |
| Day16.AllDistances | 16/src/main.rs:153-156 | one shortest-distance table per tunnel key, and they all exist whenever every tunnel leads to a known valve |
| Day16.GetAllStates | 16/src/main.rs:139-193 | when the tunnels are closed, the start is known and at most 16 valves are kept, the states are whatever the search over valves with positive flow (and the start) restricted distance tables yields, which may be none when a `u32` step overflows |
| Day16.MaxValue | 16/src/main.rs:202 | the largest value of a non-empty map, None for an empty one |
| Day16.BestOfStates | 16/src/main.rs:195-203 | the largest recorded value is released by some tour and no tour releases more |
| Day16.GetMostPressure | 16/src/main.rs:195-203 | the answer is the most pressure any single opening order releases in the time |
| Day16.BestDisjointPair | 16/src/main.rs:213-230 | the best sum of two recorded states with no valve in common, None exactly when there is no such pair |
| Day16.PairUp | 16/src/main.rs:211-230 | no answer when the search failed or no two recorded states are disjoint; otherwise the best disjoint pair's sum |
| Day16.GetMostPressureWithElephant | 16/src/main.rs:205-231 | when the network can be built, the answer exists exactly when the search succeeds and two of its recorded states have no valve in common; it is then the sum of such a pair and no disjoint pair sums to more |
| Day16.Parent | 16/src/main.rs:61-98 | each reached valve other than the source has a tunnel from a valve one step closer |
| Day16.ExtendPath | 16/src/main.rs:61-98 | extending a path by one tunnel gives a path |
| Day16.RelaxFinish | 16/src/main.rs:83-94 | after relaxing every tunnel of a valve the search invariant holds, the sum of the distances has not risen, and it has fallen unless nothing was pushed |
| Day16.WalkedFrom | 16/src/main.rs:117 | the valves the neighbour loop reaches from a position on |
| Day16.ExploreFromMeaning | 16/src/main.rs:117-134 | the loop from a position on keeps every recorded answer, dominates every tour through the remaining neighbours, and records only attained flows |
| Day16.SkipMeaning | 16/src/main.rs:118-120 | skipping an opened or out-of-budget valve keeps the loop's meaning |
| Day16.OpenMeaning | 16/src/main.rs:122-133 | opening a valve and recursing keeps the loop's meaning |
| Day16.ExploreRecordsState | 16/src/main.rs:110-115 | a visit records at least the flow in hand for the current state |
| Day16.AllShortestRowsClosed | 16/src/main.rs:153-156 | the pairwise distance table has a row for every valve that any row mentions |
| Day16.NetworkOfOk | 16/src/main.rs:139-193 | every valve a distance row of the built network mentions has its own row, bit and rate, and is in the walk order |
| Day16.NetworkOfSeparate | 16/src/main.rs:173-177 | two valves' bits in the built network overlap exactly when they are the same valve |
| Day16.UnionOverlaps | 16/src/main.rs:118 | a bit set overlaps a union exactly when it overlaps one of its parts |
| Day16.PairsMeaning | 16/src/main.rs:213-230 | a result exists exactly when some disjoint pair of states exists, and it is the largest pair sum |
| Day16.PairsAttained | 16/src/main.rs:213-230 | the result is the sum of some disjoint pair of states |
| Day16.PairsBounded | 16/src/main.rs:213-230 | no disjoint pair of states sums above the result |
| Day16.PairsNone | 16/src/main.rs:216-230 | when no result exists, no two states are disjoint |
| Day17Coordinate.PartialCmp | 17/src/coordinate.rs:11-19 | coordinates are ordered by row first and by column within a row, and the order is always defined |
| Day17Coordinate.Cmp | 17/src/coordinate.rs:21-25 | `cmp` is the unwrapped `partial_cmp` and says Equal exactly for equal coordinates |
| Day17Coordinate.CmpAntisymmetric | 17/src/coordinate.rs:11-25 | swapping the operands reverses the ordering |
| Day17Coordinate.CmpTransitive | 17/src/coordinate.rs:11-25 | the ordering is transitive, so it is a total order |
| Day17Parser.Directions | 17/src/parser.rs:9-18 | on a text of only '<' and '>' the pattern has one direction per character: Left exactly for '<', Right exactly for '>' |
| Day17Parser.ParseJetPattern | 17/src/parser.rs:9-18 | the parse fails (the `unreachable!()` panic) exactly when some character is neither '<' nor '>'; otherwise each character maps to Left or Right in order |
| Day17Parser.Render | 17/src/parser.rs:9-18 | the text written for a pattern has one character per direction |
| Day17Parser.ParseRender | 17/src/parser.rs:9-18 | a written pattern uses only '<' and '>', and parsing it gives the pattern back |
| Day17Parser.RenderParse | 17/src/parser.rs:9-18 | a text that parses is the text written for its pattern |
| Day17Parser.NewlinePanics | 17/src/parser.rs:12-15 | any text ending in a newline reaches the panic |
| Day17Parser.ParseExample | 17/src/parser.rs:38-44 | the puzzle's 40-character example parses to the expected directions |
| Day17Rock.NextIndex | 17/src/simulator/rock.rs:29 | one call of `next` moves the index from 4 back to 0 and otherwise up by one |
| Day17Rock.AdvanceIndexMod | 17/src/simulator/rock.rs:19-32 | `k` calls of `next` move the index by `k` modulo 5 |
| Day17Rock.NextIndexMod | 17/src/simulator/rock.rs:29 | the index after `i + 1` calls from 0 is `(i + 1) % 5` |
| Day17Rock.RockIterator.constructor | 17/src/simulator.rs:90 | the iterator starts at index 0 |
| Day17Rock.RockIterator.Next | 17/src/simulator/rock.rs:19-32 | the shape for the current index (Minus, Plus, L, I, Square), and the index moves on modulo 5 |
| Day17Rock.Place | 17/src/simulator/rock.rs:35-127 | each cell of a placed shape is its drawn offset added to the corner |
| Day17Rock.PlaceShape | 17/src/simulator/rock.rs:35-127 | a placed shape has distinct cells inside its bounding box, touching its left and bottom edges and its top row, with the first cell on the bottom row |
| Day17Rock.CreateRock | 17/src/simulator/rock.rs:35-127 | a new rock has 4 or 5 distinct cells, lies in columns 2 to 5, touches column 2, and starts three rows above the height with its first part on the bottom row |
| Day17Rock.CreateRockIsPlace | 17/src/simulator/rock.rs:35-38 | `create_rock` places the drawn shape with its corner at x = 2, three rows above the height |
| Day17Rock.CreateRockMinusExample | 17/src/simulator/rock.rs:136-147 | the unit test's horizontal rock at height 0 |
| Day17Chamber.TopRowExists | 17/src/simulator/chamber.rs:12-17 | a chamber with rocks has a highest occupied row |
| Day17Chamber.MaxY | 17/src/simulator/chamber.rs:13 | the maximum `y` is attained by a cell and bounds every cell |
| Day17Chamber.Chamber.GetHeight | 17/src/simulator/chamber.rs:12-17 | the height is 0 for an empty chamber and otherwise one more than the highest occupied row |
| Day17Chamber.Chamber.GetAdjustedHeight | 17/src/simulator/chamber.rs:19-21 | the height plus the skipped cycle height, less one: for a chamber with rocks, the highest occupied row shifted by the cycle height (attained by a cell, and no cell lies above it); for an empty one, the cycle height less one |
| Day17Chamber.HeightMonotone | 17/src/simulator/chamber.rs:12-17 | adding cells never lowers the height |
| Day17Chamber.HeightOfUnion | 17/src/simulator/chamber.rs:12-17 | adding cells no higher than `top` raises the height to at most `top + 1` |
| Day17Simulator.Translate | 17/src/simulator.rs:114-128 | every part moved by the same offset, in order |
| Day17Simulator.TranslatePlace | 17/src/simulator.rs:114-128 | moving a placed shape is placing it at the moved corner |
| Day17Simulator.ShiftRock | 17/src/simulator.rs:114-128 | the in-place update of the parts leaves each part moved by the offset |
| Day17Simulator.AnyInColumn | 17/src/simulator.rs:161-178 | true exactly when some part is in the given column |
| Day17Simulator.AnyOccupied | 17/src/simulator.rs:152-157 | true exactly when some cell is occupied by a resting rock |
| Day17Simulator.IsBlockedBelow | 17/src/simulator.rs:145-159 | blocked exactly when the first part is on the floor or some part has a resting rock right below it |
| Day17Simulator.IsBlockedLeft | 17/src/simulator.rs:161-175 | blocked exactly when some part is at the left wall or has a resting rock to its left |
| Day17Simulator.IsBlockedRight | 17/src/simulator.rs:177-186 | blocked exactly when some part is in column 6 or has a resting rock to its right |
| Day17Simulator.Push | 17/src/simulator.rs:107-121 | a jet never changes the rock's row |
| Day17Simulator.CannotFall | 17/src/simulator.rs:123-129 | a rock that can fall is above the floor |
| Day17Simulator.Settle | 17/src/simulator.rs:106-130 | every rock uses at least one jet before it rests |
| Day17Simulator.PushMovesByOne | 17/src/simulator.rs:107-121 | a jet leaves the rock where it is or moves every part one column in the jet's direction |
| Day17Simulator.PushLeftKeepsClear | 17/src/simulator.rs:109-115 | an unblocked left push of clear cells stays inside the walls and off the resting rocks |
| Day17Simulator.PushRightKeepsClear | 17/src/simulator.rs:116-121 | an unblocked right push of clear cells stays inside the walls and off the resting rocks |
| Day17Simulator.FallKeepsClearCells | 17/src/simulator.rs:123-129 | an unblocked fall of clear cells stays above the floor and off the resting rocks |
| Day17Simulator.PlaceLeftEdge | 17/src/simulator/rock.rs:35-127 | every placed shape has a part in its corner's column |
| Day17Simulator.PushLeftKeepsClearAt | 17/src/simulator.rs:109-115 | a left jet keeps a clear rock clear |
| Day17Simulator.PushRightKeepsClearAt | 17/src/simulator.rs:116-121 | a right jet keeps a clear rock clear |
| Day17Simulator.PushKeepsClear | 17/src/simulator.rs:107-121 | any jet keeps a clear rock clear |
| Day17Simulator.FallKeepsClear | 17/src/simulator.rs:123-129 | a clear rock that can fall is clear one row lower |
| Day17Simulator.SettleKeepsClear | 17/src/simulator.rs:106-130 | a rock that starts clear rests clear: inside the walls and on no resting rock |
| Day17Simulator.BlockedIsLow | 17/src/simulator.rs:145-159 | a rock that cannot fall sits no higher than the chamber's height |
| Day17Simulator.SettleNoHigherThanHeight | 17/src/simulator.rs:106-130 | a rock rests with its bottom row at most at the height |
| Day17Simulator.SpawnIsClear | 17/src/simulator.rs:102-104 | a new rock three rows above the height is clear of the chamber |
| Day17Simulator.ApplyJet | 17/src/simulator.rs:107-121 | the in-place jet leaves the parts where the pure push puts the rock |
| Day17Simulator.ShiftPlaced | 17/src/simulator.rs:114-120 | moving a placed rock's parts sideways in place places it at the moved corner |
| Day17Simulator.SettleRests | 17/src/simulator.rs:123-125 | a pushed rock that cannot fall rests where the push left it, one jet later |
| Day17Simulator.SettleFalls | 17/src/simulator.rs:126-129 | a pushed rock that can fall goes on one row lower with the next jet |
| Day17Simulator.RockCannotFall | 17/src/simulator.rs:123 | `is_blocked_below` on the parts agrees with the pure check |
| Day17Simulator.Fall | 17/src/simulator.rs:128 | the in-place fall leaves the parts one row lower |
| Day17Simulator.Step | 17/src/simulator.rs:107-129 | one pass of the inner loop: the push, the fall check, and either the rest or the parts one row lower, in step with `Settle` |
| Day17Simulator.DropRock | 17/src/simulator.rs:106-130 | the inner loop ends with the parts where `Settle` rests the rock and with the jet count it reports |
| Day17Simulator.Neighbours | 17/src/simulator.rs:17-66 | at least three cells, all Moore neighbours of the centre |
| Day17Simulator.NeighboursMeaning | 17/src/simulator.rs:17-66 | every Moore neighbour appears exactly once, starting with the cell above: eight, or five on an edge, or three in the corner |
| Day17Simulator.IndexOf | 17/src/simulator.rs:70 | `position` finds the first index holding the value |
| Day17Simulator.NeighbourhoodFrom | 17/src/simulator.rs:17-78 | the scan only visits Moore neighbours of the centre |
| Day17Simulator.NeighbourhoodFromMeaning | 17/src/simulator.rs:68-73 | it panics exactly when the start is not a neighbour; otherwise it is the neighbour list rotated to begin at the start |
| Day17Simulator.TraceStartExists | 17/src/simulator.rs:262-265 | a non-empty set has a leftmost-then-highest cell |
| Day17Simulator.TraceStart | 17/src/simulator.rs:262-265 | the `max_by` start is a cell of the set with the least `x`, and the greatest `y` among those, and no cell compares greater |
| Day17Simulator.Advance | 17/src/simulator.rs:276-284 | one pass collects the current point exactly when it is occupied and remembers it as the previous point |
| Day17Simulator.TraceWalkStep | 17/src/simulator.rs:276-284 | a pass that does not panic hands the outcome on to the remaining passes |
| Day17Simulator.TraceWalkPanics | 17/src/simulator.rs:279-283 | a pass that panics ends the walk with the panic |
| Day17Simulator.TraceWalkWithin | 17/src/simulator.rs:276-284 | a walk collects only cells of the chamber, keeping what it has |
| Day17Simulator.TraceWalkMoreFuel | 17/src/simulator.rs:276-284 | a walk that ends within its step budget ends the same with any larger budget |
| Day17Simulator.TraceMeaning | 17/src/simulator.rs:256-287 | the trace outcome does not depend on the budget once it ends; a traced boundary holds the start and only chamber cells |
| Day17Simulator.LinkedAdd | 17/src/simulator.rs:277-280 | collecting a neighbour of a collected cell keeps the collected cells 8-connected |
| Day17Simulator.WalkStep | 17/src/simulator.rs:276-284 | one loop pass on the loop's own variables agrees with the pure pass and keeps the walk invariant, or reports the panic |
| Day17Simulator.TraceBoundary | 17/src/simulator.rs:256-287 | `_boundry_trace` returns the pure trace's outcome; the boundary holds the start, lies in the chamber and is 8-connected |
| Day17Simulator.Padded | 17/src/simulator.rs:195-227 | the padded chamber holds every shifted cell |
| Day17Simulator.PaddedOffWalls | 17/src/simulator.rs:206-227 | every padded cell off the walls and floor is a shifted chamber cell |
| Day17Simulator.PaddedTraceStart | 17/src/simulator.rs:209-265 | after padding the trace starts at the top of the left wall |
| Day17Simulator.StripShiftDown | 17/src/simulator.rs:236-249 | removing the walls and floor and shifting back gives only cells of the original chamber |
| Day17Simulator.Prune | 17/src/simulator.rs:188-254 | a pruned chamber is a subset of the chamber; a failed trace is reported as it failed |
| Day17Simulator.PruneMoreFuel | 17/src/simulator.rs:188-254 | pruning that ends within its budget ends the same with any larger budget |
| Day17Simulator.BoundaryTrace | 17/src/simulator.rs:188-254 | `boundry_trace` computes `Prune` |
| Day17Simulator.LandingIsClear | 17/src/simulator.rs:102-130 | a spawned rock rests clear of the chamber and no higher than its height |
| Day17Simulator.LandedCells | 17/src/simulator.rs:133-135 | the cells of a resting rock are new cells inside the walls, below the top of its bounding box |
| Day17Simulator.CellSet | 17/src/simulator.rs:133-135 | the set holds exactly the rock's parts |
| Day17Simulator.AddRock | 17/src/simulator.rs:102-135 | the chamber gains exactly the landed rock's cells, which were free; the chamber stays inside the walls and grows by at most four rows |
| Day17Simulator.NewRock | 17/src/simulator.rs:104 | the rock's parts in a new buffer |
| Day17Simulator.SpawnAndDrop | 17/src/simulator.rs:102-130 | the parts rest where `Landing` says, after the jets it counts |
| Day17Simulator.IterateKeeps | 17/src/simulator.rs:97-140 | a property of the empty chamber that every rock keeps holds after any number of rocks |
| Day17Simulator.IterateStays | 17/src/simulator.rs:97-140 | once stopped, further rocks change nothing |
| Day17Simulator.DropStops | 17/src/simulator.rs:137 | a rock whose trace fails stops the simulation at that rock |
| Day17Simulator.DropBounds | 17/src/simulator.rs:97-140 | one rock keeps the tower inside the walls and raises it by at most four rows |
| Day17Simulator.NextTowerBounded | 17/src/simulator.rs:97-140 | one more rock keeps the bound of four rows per rock |
| Day17Simulator.StackBounds | 17/src/simulator.rs:97-140 | after `n` rocks the tower is inside the walls and at most `4 * n` high, or it stopped at one of those rocks (at the first, when there are no jets) |
| Day17Simulator.FinishedBounds | 17/src/simulator.rs:89-143 | the returned chamber keeps to the walls and is at most `4 * n` rows high |
| Day17Simulator.StoppedStays | 17/src/simulator.rs:97-140 | a stopped simulation stays stopped the same way |
| Day17Simulator.NoJetsStops | 17/src/simulator.rs:107 | without jets the first rock panics |
| Day17Simulator.NoJetsFinished | 17/src/simulator.rs:107 | without jets any simulation of at least one rock ends in that panic |
| Day17Simulator.FailedFinished | 17/src/simulator.rs:137 | a trace failure at rock `k` is what the simulation returns |
| Day17Simulator.StackStep | 17/src/simulator.rs:97-140 | one more rock on a standing tower is one more `NextTower` step |
| Day17Simulator.SimulateRock | 17/src/simulator.rs:102-137 | one rock landed and pruned agrees with the tower `Stack` describes, keeping the walls |
| Day17Simulator.Pass | 17/src/simulator.rs:97-140 | one pass of the `for` loop: the shape index moves on, and either the simulation's result or the next tower of `Stack` |
| Day17Simulator.RunSimulation | 17/src/simulator.rs:89-143 | the result is the tower after `simulation_length` rocks (or the rock whose trace failed, or the jet panic), inside the walls and at most four rows per rock high |
| Day18Point.PartialCmp | 18/src/point.rs:12-16 | `partial_cmp` is always defined and agrees with `cmp` |
| Day18Point.CmpMeaning | 18/src/point.rs:18-25 | points are ordered by x, then y, then z; Equal exactly for equal points; swapping reverses the ordering |
| Day18Point.Cmp | 18/src/point.rs:18-25 | Equal exactly for equal points, and Less exactly when x, then y, then z is smaller |
| Day18Point.BelowTransitive | 18/src/point.rs:18-25 | the order is transitive |
| Day18Point.ParseOrdinate | 18/src/point.rs:34-36 | a coordinate parses exactly when it is a decimal number below 256, to that number |
| Day18Point.FromStrToStr | 18/src/point.rs:27-39 | reading the written text of a point gives the point back |
| Day18Point.FromStr | 18/src/point.rs:27-39 | fewer than three pieces panic; a point is read exactly when the first three pieces are `u8` numerals, and its coordinates are those numerals |
| Day18Point.NonNumericIsError | 18/src/point.rs:30-38 | three comma-separated pieces of which one is not a `u8` give the `ParseIntError` |
| Day18Point.MissingPieceIsPanic | 18/src/point.rs:31-36 | one or two pieces make `split.next().unwrap()` panic |
| Day18Octree.Index | 18/src/octree.rs:24-34 | every octant is a child index below eight |
| Day18Octree.IndexInjective | 18/src/octree.rs:24-34 | distinct octants have distinct child indices |
| Day18Octree.New | 18/src/octree.rs:45-64 | a new node has its eight children and holds no point |
| Day18Octree.ValidatePoint | 18/src/octree.rs:66-75 | the only error is the out-of-bounds one |
| Day18Octree.InBoxValidates | 18/src/octree.rs:66-75 | a point inside the box on every axis passes validation |
| Day18Octree.ValidateIsLexicographic | 18/src/octree.rs:70 | validation compares points in their lexicographic order, so a point outside the box on two axes can pass it |
| Day18Octree.GetMidPoint | 18/src/octree.rs:231-237 | when the `u8` sums do not overflow, the midpoint is the halved sum of the corners on each axis |
| Day18Octree.GetOctant | 18/src/octree.rs:239-254 | the octant is on the upper side of an axis exactly when the point is at or past the midpoint on that axis |
| Day18Octree.Find | 18/src/octree.rs:215-229 | a point outside the box is the out-of-bounds error, and no other error is reported |
| Day18Octree.ChildBoxByAxes | 18/src/octree.rs:102-200 | each octant's new box is the lower or upper half on every axis, the upper half when the octant is upper on that axis |
| Day18Octree.FindFresh | 18/src/octree.rs:215-229 | on a new node a point out of bounds is the bounds error, a midpoint overflow panics, and any other point is not found |
| Day18Octree.StoredOfLeaves | 18/src/octree.rs:41 | children that are empty leaves hold no points |
| Day18Octree.StoredInChild | 18/src/octree.rs:41 | every child's points are points of the node |
| Day18Octree.StoredInReplace | 18/src/octree.rs:100-207 | replacing one child changes the node's points by that child's points |
| Day18Octree.FindTrueIsStored | 18/src/octree.rs:215-229 | `find` answers true only for a point held in some leaf |
| Day18Octree.OctantOf | 18/src/octree.rs:24-34 | every child index names an octant |
| Day18Octree.WellFormedShaped | 18/src/octree.rs:36-42 | a tree built by the inserts has eight children at every node |
| Day18Octree.HalfCube | 18/src/octree.rs:96-200 | the box of each octant of a cube has half its side |
| Day18Octree.InChildBox | 18/src/octree.rs:84-88 | a point in a node's box lies in the box of the octant `get_octant` picks for it |
| Day18Octree.Place | 18/src/octree.rs:100-207 | replacing a child keeps the node's box and its number of children |
| Day18Octree.InsertExisting | 18/src/octree.rs:80-82 | inserting a point that is found is the already-exists error |
| Day18Octree.InsertOutOfBounds | 18/src/octree.rs:78 | inserting a point that fails validation is the bounds error |
| Day18Octree.InsertParts | 18/src/octree.rs:77-213 | a successful insert passed validation, did not find the point, and replaced the point's octant by the new child |
| Day18Octree.Insert | 18/src/octree.rs:77-213 | a point outside the box is the out-of-bounds error; the only errors are out of bounds and already exists |
| Day18Octree.PlaceWellFormed | 18/src/octree.rs:100-207 | a child that fits its octant keeps the node well formed |
| Day18Octree.PlaceStored | 18/src/octree.rs:100-207 | replacing a child changes the node's points by that child's points |
| Day18Octree.PlaceFind | 18/src/octree.rs:215-229 | after replacing a child, `find` follows the new child in that octant and the old children elsewhere |
| Day18Octree.PutKeepsShape | 18/src/octree.rs:91-211 | the new child fits the point's octant and holds the point besides what the old child held |
| Day18Octree.InsertKeepsShape | 18/src/octree.rs:77-213 | a successful insert keeps the tree well formed and its box, and adds exactly the point |
| Day18Octree.InsertHasMid | 18/src/octree.rs:84 | a successful insert computed the midpoint without overflow |
| Day18Octree.PutFinds | 18/src/octree.rs:91-211 | the new child holds the point where `find` looks for it |
| Day18Octree.InsertThenFind | 18/src/octree.rs:77-229 | after a successful insert the point is found |
| Day18Octree.PutKeepsOthers | 18/src/octree.rs:91-211 | the new child answers `find` for every other point of its box as the old child did |
| Day18Octree.InsertKeepsOthers | 18/src/octree.rs:77-229 | a successful insert leaves `find` unchanged on every other point of the box |
| Day18Octree.LeafAtSideTwo | 18/src/octree.rs:96-100 | in a node of side 2 the new point becomes the leaf of its octant |
| Day18Octree.SideTwoHasLeaves | 18/src/octree.rs:96-100 | a node of side 2 has only leaves as children |
| Day18Octree.UnitBoxHoldsLeaf | 18/src/octree.rs:96-100 | no subtree fits a box of side 1 |
| Day18Octree.FindNoPanic | 18/src/octree.rs:215-237 | when every midpoint fits a `u8`, `find` never panics |
| Day18Octree.PutMidsFit | 18/src/octree.rs:91-211 | the new child keeps every midpoint in range |
| Day18Octree.InsertMidsFit | 18/src/octree.rs:77-213 | a successful insert leaves a tree whose every midpoint fits |
| Day18Create.MinCoord | 18/src/main.rs:140-144 | the smallest coordinate of any cube on any axis, attained by some cube |
| Day18Create.MaxCoord | 18/src/main.rs:152-156 | the largest coordinate of any cube on any axis, attained by some cube |
| Day18Create.PowTwoFacts | 18/src/main.rs:159 | powers of two are powers of two, positive, halve to the previous one, and `2^7` is 128 |
| Day18Create.PowTwoMonotone | 18/src/main.rs:159 | powers of two grow with the exponent |
| Day18Create.FirstPowerOfTwoMeaning | 18/src/main.rs:159 | the search finds a power of two exactly when the largest coordinate is at most 128, and it is the smallest one not below it |
| Day18Create.FirstPowerOfTwo | 18/src/main.rs:159 | a found value is a power of two, at least the largest coordinate and at most 128 |
| Day18Create.InsertAll | 18/src/main.rs:171-173 | a run of inserts that succeeds keeps the tree well formed and its box |
| Day18Create.InsertChecked | 18/src/main.rs:172 | one insert of the loop keeps the tree well formed and its box |
| Day18Create.Root | 18/src/main.rs:146-169 | the root is a new cube of side `power_of_two` at the minimum; its midpoint overflows exactly when the sum of its corners exceeds 255, and otherwise it finds nothing |
| Day18Create.CreateTree | 18/src/main.rs:139-176 | the method computes `create_tree`'s result, the panics included |
| Day18Create.InsertPositions | 18/src/main.rs:171-173 | the loop inserts the cubes in order and stops at the first error |
| Day18Create.InsertAllStops | 18/src/main.rs:172 | after an error or panic the remaining cubes are not inserted |
| Day18Create.InsertAllFacts | 18/src/main.rs:171-173 | successful inserts add exactly the inserted cubes and keep every midpoint in range |
| Day18Create.InsertAllFind | 18/src/main.rs:171-173 | after successful inserts an inserted cube is found and any other point answers as before |
| Day18Create.CreatedFrom | 18/src/main.rs:139-176 | a built tree comes from a non-empty list whose power-of-two search succeeded, by inserting the cubes into the root |
| Day18Create.Created | 18/src/main.rs:139-176 | an empty list panics (the `min().unwrap()`); the only errors are out of bounds and already exists; a built tree is well formed |
| Day18Create.CubesInRoot | 18/src/main.rs:139-169 | with every coordinate at least 1, every cube lies in the root's box |
| Day18Create.CreatedBox | 18/src/main.rs:139-169 | the tree spans from the minimum to the minimum plus the smallest power of two not below the largest coordinate, at least 2 |
| Day18Create.Elements | 18/src/main.rs:171 | the set holds exactly the cubes of the list |
| Day18.Adjacent | 18/src/main.rs:21-67 | at most six neighbours |
| Day18.AdjacentMeaning | 18/src/main.rs:21-67 | the neighbours are exactly the cubes sharing a face, no step going up from `upper_bound` |
| Day18.AdjacentDistinct | 18/src/main.rs:21-67 | no neighbour twice and never the cube itself |
| Day18.AdjacentWithin | 18/src/main.rs:21-67 | neighbours stay within the bound, and a cube strictly inside has all six |
| Day18.Hits | 18/src/main.rs:76-80 | no more found cells than cells looked up |
| Day18.Contacts | 18/src/main.rs:69-82 | at most six contacts per cube |
| Day18.CountOpenFacingSides | 18/src/main.rs:69-84 | the loops compute six faces per cube less the found neighbours, or the panic of a `find` |
| Day18.CountFound | 18/src/main.rs:76-80 | the inner loop counts the found neighbours |
| Day18.ContactsStep | 18/src/main.rs:72-81 | each cube adds its found neighbours to the count, or the panic |
| Day18.NoneStays | 18/src/main.rs:76-80 | a panic in one lookup is the panic of the whole count |
| Day18.ContactsNoneStays | 18/src/main.rs:72-81 | a panic for one cube is the panic of the whole count |
| Day18.CountIn | 18/src/main.rs:76-80 | no more cells in the set than cells |
| Day18.HitsCount | 18/src/main.rs:76-80 | on a tree holding exactly the cubes, the lookups count the neighbours that are cubes |
| Day18.ContactsCount | 18/src/main.rs:72-81 | on such a tree the contacts are the neighbour pairs among the cubes |
| Day18.OpenSidesOfHeld | 18/src/main.rs:69-84 | on such a tree the open sides are six per cube less the shared faces counted from both sides |
| Day18.OpenSidesOf | 18/src/main.rs:83 | the `usize` subtraction never underflows, and the result is six per cube less the contacts |
| Day18.InAllPoints | 18/src/point.rs:3 | every point has `u8` coordinates |
| Day18.FoundSetMeaning | 18/src/octree.rs:215-229 | the found set holds exactly the points `find` reports found |
| Day18.CountOutsideFaces | 18/src/main.rs:86-114 | the fill panics when `max_point.x + 5` overflows a `u8`, not otherwise when every midpoint fits, and its count is the faces between the connected region of empty cells around the start and the cubes |
| Day18.Fill | 18/src/main.rs:95-113 | the flood fill ends with the region reached from the start and the count of its faces against found cells, and does not panic when every midpoint fits |
| Day18.FillPop | 18/src/main.rs:96-110 | one pass keeps the fill's invariant and makes progress, or panics only on a tree whose midpoints overflow |
| Day18.FindNoPanicHere | 18/src/main.rs:99 | a panicking `find` means some midpoint overflows |
| Day18.CountInAppend | 18/src/main.rs:105-107 | counting a concatenation adds the counts |
| Day18.FillSkip | 18/src/main.rs:98 | popping a visited cell keeps the invariant |
| Day18.FillFound | 18/src/main.rs:100-102 | popping a found cell counts one face and keeps the invariant |
| Day18.Popped | 18/src/main.rs:96-102 | dropping a visited or found cell keeps the invariant with the face it stood for |
| Day18.PopReached | 18/src/main.rs:96 | popping keeps every stacked cell reachable |
| Day18.PopPending | 18/src/main.rs:96-102 | popping a visited or found cell keeps every neighbour of the region accounted for |
| Day18.FillVisit | 18/src/main.rs:103-108 | visiting a new empty cell and pushing its neighbours keeps the invariant |
| Day18.VisitReached | 18/src/main.rs:103-108 | the pushed neighbours are reachable |
| Day18.VisitPending | 18/src/main.rs:103-108 | after the visit every neighbour of the region is visited, found or stacked |
| Day18.VisitCount | 18/src/main.rs:103-108 | the faces still on the stack and those counted together match the region's faces |
| Day18.VisitClear | 18/src/main.rs:104 | the region stays free of cubes and repetitions |
| Day18.VisitSpanning | 18/src/main.rs:104 | the region stays connected from the start |
| Day18.FillDone | 18/src/main.rs:95-113 | an empty stack leaves a closed connected region and the count of its faces |
| Day18.ParseLinesMeaning | 18/src/main.rs:14-19 | a successful parse has one point per line, each the reading of its line |
| Day18.ParseLinesCons | 18/src/main.rs:14-19 | a successful parse is the first line's point before the rest's points |
| Day18.ParseLinesError | 18/src/main.rs:14-19 | a failed parse names a line that does not read as a point |
| Day18.Lines | 18/src/main.rs:14-19 | one line per point, its written text |
| Day18.ParseLinesOfLines | 18/src/main.rs:14-19 | reading the written lines gives the points back |
| Day18.ParseLinesStep | 18/src/main.rs:14-19 | reading one more line puts its point first |
| Day18.ParseInputRoundTrip | 18/src/main.rs:14-19 | parsing the written input gives the points back |
| Day18.ToStrChars | 18/src/point.rs:27-39 | a written point holds only digits and commas |
| Day18.ShiftUp | 18/src/main.rs:121-128 | the shift succeeds exactly when no coordinate is 255, and moves every cube up by one on each axis |
| Day18.CreatedHolds | 18/src/main.rs:121-129 | with every coordinate at least 1, the built tree finds exactly the cubes and never panics |
| Day18.HeldAt | 18/src/main.rs:139-176 | in that tree a point is found exactly when it is one of the cubes, and `find` never panics |
| Day18Example.InsertIntoUnitLeaf | 18/src/octree.rs:94-100 | in a node of side 2 a point with an empty octant becomes that octant's leaf |
| Day18Example.TwoCubesRoot | 18/src/main.rs:208-215 | the test's two cubes give the root of side 2 at (1, 1, 1) |
| Day18Example.FirstCube | 18/src/main.rs:208-215 | the first cube becomes the leaf of octant 3 |
| Day18Example.SecondCube | 18/src/main.rs:208-215 | the second cube becomes the leaf of octant 2 |
| Day18Example.TwoCubesCreated | 18/src/main.rs:208-215 | `create_tree` succeeds on the two cubes |
| Day18Example.CreatedTwo | 18/src/main.rs:171-175 | two successful inserts into the root create the tree |
| Day18Example.InsertAllSnoc | 18/src/main.rs:171-173 | one more cube is one more insert after the others |
| Day18Example.CountInCons | 18/src/main.rs:76-80 | counting from the front of a list |
| Day18Example.CountInSix | 18/src/main.rs:76-80 | six cells of which exactly one is a cube count one |
| Day18Example.TwoCubesContacts | 18/src/main.rs:208-215 | each of the two cubes has the other as its one neighbour |
| Day18Example.TwoCubes | 18/src/main.rs:208-215 | the unit test: two cubes side by side leave 10 faces open |
| Day18Example.TwoCubesHeld | 18/src/main.rs:208-215 | the tree built from the two cubes holds exactly them |
| Day19.Counts.Set | 19/src/main.rs:73-90 | setting one kind changes that kind and no other |
| Day19.Collect | 19/src/main.rs:86-93 | `build_robots`: every kind grows by its robots; robots and minute unchanged |
| Day19.Pay | 19/src/main.rs:72-75 | paying an affordable list of distinct kinds leaves each kind less its cost, never below zero |
| Day19.CostOfAbsent | 19/src/main.rs:72-75 | a list that does not name a kind charges nothing of it |
| Day19.Candidate | 19/src/main.rs:103-132 | option 0 is waiting (collect only), options past 4 are nothing, and no option changes the minute |
| Day19.BuildMeaning | 19/src/main.rs:64-84 | building option `i` is possible exactly when its list is affordable; it pays, lets the old robots collect, then adds exactly one robot of its kind |
| Day19.NoGeodeCost | 19/src/main.rs:105-130 | no robot costs geodes |
| Day19.CandidateFollows | 19/src/main.rs:103-144 | every option, a minute later, gains at most the old geode robots' geodes and at most one geode robot |
| Day19.Scan | 19/src/main.rs:97-137 | the loop stops at the first present option from `i` on, or gives up past 4; every option it skipped was absent |
| Day19.TickedSomesCons | 19/src/main.rs:141-144 | the yielded states of a list are its present ones, a minute later, in order |
| Day19.ScanYields | 19/src/main.rs:97-146 | one `next` call yields the first remaining state and leaves the rest to later calls |
| Day19.SuccessorsInOrder | 19/src/main.rs:103-132 | the iterator yields waiting, then the ore, clay, obsidian and geode robots, each only when affordable |
| Day19.WaitFirst | 19/src/main.rs:104 | waiting is always yielded, and first |
| Day19.SuccessorsLater | 19/src/main.rs:141-144 | every yielded state follows its parent by one minute |
| Day19.StateIter.constructor | 19/src/main.rs:45-51 | the iterator starts at option 0 for the state and blueprint |
| Day19.StateIter.Next | 19/src/main.rs:63-147 | `next` returns the first present option from `i` on, a minute later, and moves `i` past it; what remains to yield is the rest |
| Day19.PairsStep | 19/src/main.rs:225 | the estimate's last term grows by `r - 1` from one minute to the next |
| Day19.EstimateStep | 19/src/main.rs:221-228 | a successor's estimate is within its parent's |
| Day19.OverestimateMaximum | 19/src/main.rs:221-228 | the estimate is at least the geodes held plus those the current geode robots collect in the remaining minutes |
| Day19.ScaleStep | 19/src/main.rs:224 | at most one more robot gives at most `a` more over `a` minutes |
| Day19.BestWithinEstimate | 19/src/main.rs:221-228 | the estimate is never below the best the remaining minutes can give |
| Day19.ChildWithinEstimate | 19/src/main.rs:221-228 | a successor's best is within its parent's estimate |
| Day19.EstimateAtLast | 19/src/main.rs:221-228 | one minute before the end the estimate is the geodes held plus those the robots collect |
| Day19.EstimateOfFollower | 19/src/main.rs:221-228 | a successor's estimate is within its parent's |
| Day19.BestOfBound | 19/src/main.rs:239-249 | the best over the successors is within any bound on each of them |
| Day19.BestOfAtLeast | 19/src/main.rs:239-249 | each successor's best is within the best over all successors |
| Day19.DfsFindsBest | 19/src/main.rs:230-252 | `dfs` returns the larger of the running maximum and the true optimum, the geodes held at the last minute: the pruning never loses the best |
| Day19.DfsOverFindsBest | 19/src/main.rs:239-251 | the loop over successors returns the larger of the running maximum and their best |
| Day19.Dfs | 19/src/main.rs:230-252 | the method computes `dfs` over a `StateIter` |
| Day19.MaximiseGeodes | 19/src/main.rs:254-272 | the most geodes the blueprint can open in the minutes, from one ore robot and nothing else |
| Day19.Qualities | 19/src/main.rs:277 | one quality level per blueprint: its id times its most geodes |
| Day19.QualitySumMeaning | 19/src/main.rs:274-279 | the `u16` sum succeeds exactly when the true sum fits, and is then that sum |
| Day19.QualitySum | 19/src/main.rs:274-279 | an empty sum is 0; a sum that does not overflow is the sum of the quality levels and below 2^16 |
| Day19.QualitySumStep | 19/src/main.rs:278 | one more term of the sum, or the overflow |
| Day19.GetQualityLevelSum | 19/src/main.rs:274-279 | the method computes the `u16` sum of the quality levels |
| Day19.NoneStaysNone | 19/src/main.rs:278 | once a partial sum overflows the whole sum does |
| Day20.Identity | 20/src/main.rs:16-17 | the starting slots give each number its own slot, in input order |
| Day20.IndexOf | 20/src/main.rs:62 | `position` finds the first index holding the value, or None when none does |
| Day20.IndexFrom | 20/src/main.rs:62 | the search from index `i` on finds the first index holding the value |
| Day20.Arrangement | 20/src/main.rs:67 | the numbers in slot order: the number in each slot is the one whose position is that slot |
| Day20.Owner | 20/src/main.rs:67 | every slot is held by some number |
| Day20.OwnerUnique | 20/src/main.rs:67 | the number found in a number's slot is that number |
| Day20.NewPosition | 20/src/main.rs:20-31 | the new slot lies in `0..len`; the move panics exactly when the `i16` addition overflows or the list has one number (remainder by zero) |
| Day20.Shifted | 20/src/main.rs:39-57 | a move keeps the number of slots |
| Day20.ShiftedPermutation | 20/src/main.rs:39-57 | after a move every number still has its own slot |
| Day20.MoveMeaning | 20/src/main.rs:39-57 | in slot order, a move takes the number out of its place and puts it back at the new slot, everything else in the same order |
| Day20.MovedSlot | 20/src/main.rs:39-57 | each slot after a move holds the number that removal and reinsertion put there |
| Day20.MixFrom | 20/src/main.rs:19-60 | the remaining moves keep every number in its own slot, or panic |
| Day20.Mixed | 20/src/main.rs:15-60 | after every move each number has its own slot |
| Day20.ValueAfterZero | 20/src/main.rs:64-68 | the lookup succeeds exactly when the `i16` sum fits, and gives the number whose slot is `offset` after the zero's, modulo the length |
| Day20.GroveSum | 20/src/main.rs:62-73 | an answer needs a 0 in the input |
| Day20.MixResult | 20/src/main.rs:15-74 | an answer needs a 0 in the input and a mixing that does not panic, and fits in `i16` |
| Day20.NeedsZero | 20/src/main.rs:62 | without a 0 `mix` panics |
| Day20.Mix | 20/src/main.rs:15-74 | the method with `positions` updated in place computes `mix`, panics included |
| Day20.MoveOne | 20/src/main.rs:41-57 | the in-place inner loop leaves the slots a move gives |
| Day21.ParseOperation | 21/src/main.rs:34-47 | an operation is parsed only from at least three space-separated words, and its operands are the first and third of them |
| Day21.JobKinds | 21/src/main.rs:49-62 | a yell text whose first character is a digit parses as a number and any other as an operation |
| Day21.ParseJob | 21/src/main.rs:49-62 | a line without ": " is a panic; a parsed job is named by the text before ": ", and a number yell is a non-negative `i64` |
| Day21.NoColon | 21/src/main.rs:50 | a text without a colon holds no ": " separator anywhere |
| Day21.ParseRenderJob | 21/src/main.rs:49-62 | parsing the written form of a job with letter names and an i64 number gives the same job back |
| Day21.RenderJobOneLine | 21/src/main.rs:64-66 | the written form of a job holds no newline, so it stays one line when jobs are split on newlines |
| Day21.ParseJobs | 21/src/main.rs:64-66 | the jobs exist exactly when every line parses, one job per line and each the parse of its line |
| Day21.RenderJobs | 21/src/main.rs:64-66 | the written jobs are one line per job, in input order |
| Day21.ParseRenderJobs | 21/src/main.rs:64-66 | parsing the newline-joined written jobs gives the whole job list back, in order |
| Day21.YellTextParses | 21/src/main.rs:53-58 | the yell text of a written job holds no colon and reads back as the job's own yell |
| Day21.OperationTextParses | 21/src/main.rs:34-47 | "a op b" with letter names parses back as the operation with operands a and b |
| Day21.OperationTextNoColon | 21/src/main.rs:53 | "a op b" with letter names and an operator that is neither a colon nor a newline holds no colon and no newline |
| Day21.SplitThree | 21/src/main.rs:35-38 | three space-free words joined by spaces split on spaces into exactly those three words |
| Day21.ToJobMap | 21/src/main.rs:116-117 | the job map has an entry for every monkey with a job in the list, and for no other monkey |
| Day21.ToJobMapLast | 21/src/main.rs:116-117 | a monkey's entry in the job map is its last job in the list |
| Day21.Quotient | 21/src/main.rs:131 | i64 division rounds towards zero: the remainder is smaller than the divisor in size and has the dividend's sign |
| Day21.Apply | 21/src/main.rs:127-132 | an operation yields a value exactly when it neither divides by zero nor leaves the i64 range, and the value is the exact result |
| Day21.EvalNeedsOperands | 21/src/main.rs:123-136 | a monkey whose number can be worked out has operands that all have jobs whose numbers can be worked out |
| Day21.EvalRankFree | 21/src/main.rs:123-136 | a monkey's number does not depend on which acyclic ranking of the jobs the proof uses |
| Day21.QueueWeightSplit | 21/src/main.rs:76-97 | the outstanding work of two joined queues is the sum of their outstanding work |
| Day21.JobWeightOfMonkey | 21/src/main.rs:94 | queueing a monkey's job adds exactly the work of unfolding that monkey |
| Day21.ChildrenWeightPrefix | 21/src/main.rs:88-95 | pushing one more child adds exactly that child's work |
| Day21.ChildrenWeightSnoc | 21/src/main.rs:88-95 | the work of a list of children grows by the work of each child appended |
| Day21.RemoveFirst | 21/src/main.rs:89-91 | removing a monkey from the order keeps every other monkey and adds none |
| Day21.RemoveFirstDistinct | 21/src/main.rs:89-91 | from an order without repeats, removing a monkey leaves no copy of it and still no repeats |
| Day21.RemoveFirstKeepsBefore | 21/src/main.rs:89-91 | removing a third monkey keeps any two others in their relative order |
| Day21.MovedOrder | 21/src/main.rs:89-93 | moving a child to the end keeps the order free of repeats, holds the same monkeys plus the child, and puts the child after every other monkey |
| Day21.MovedKeepsBefore | 21/src/main.rs:89-93 | moving a child to the end keeps every other monkey before any monkey it was before |
| Day21.ExecutionOrder | 21/src/main.rs:68-103 | when root's number can be worked out the order is produced; the order holds each needed monkey once, ends with root, and puts every operand before the operation that needs it |
| Day21.OrderStart | 21/src/main.rs:72-74 | the loop starts in its invariant, with root in the order and root's job queued |
| Day21.ReversedOrder | 21/src/main.rs:99 | once the queue is empty, reversing the order puts every operand before its operation and root last |
| Day21.PendingStart | 21/src/main.rs:77 | popping a job from the back of the queue starts the pushing of its children inside the invariant |
| Day21.PendingDone | 21/src/main.rs:87-96 | after all children of the popped job are pushed the loop invariant holds again |
| Day21.PushChildren | 21/src/main.rs:79-96 | pushing the children of a popped job keeps the loop invariant and lowers the outstanding work, and fails only if root's number cannot be worked out |
| Day21.PushChild | 21/src/main.rs:89-94 | one child is moved to the end of the order and its job goes to the front of the queue; a missing job for it is a panic |
| Day21.PushChildKeeps | 21/src/main.rs:89-94 | pushing one child keeps the state of the push loop, with that child now pushed |
| Day21.UnwrapValue | 21/src/main.rs:105-113 | a monkey's value is returned exactly when its entry is a number, and it is that number |
| Day21.GetRootYell | 21/src/main.rs:115-139 | the result is the number root yells, worked out through its operands, and a panic exactly when that cannot be done |
| Day21.ProcessedStart | 21/src/main.rs:121-123 | before the loop every monkey still holds its original job |
| Day21.OperandsReady | 21/src/main.rs:124-131 | the next monkey of the order still holds its own job, and the operands of an operation already hold their numbers |
| Day21.StepNumber | 21/src/main.rs:126 | a monkey that yells a number is left as it is and counts as worked out |
| Day21.StepOperation | 21/src/main.rs:134 | replacing an operation by its number counts that monkey as worked out and leaves every other entry as it was |
| Day21.ExampleNumbersRanked | 21/src/main.rs:157-241 | each number monkey of the example is ranked consistently |
| Day21.ExampleOperationsRanked | 21/src/main.rs:157-241 | each operation monkey of the example ranks above its operands |
| Day21.ExampleFirstOperationsRanked | 21/src/main.rs:157-241 | root, cczh, ptdq and sjmn of the example rank above their operands |
| Day21.ExampleRanked | 21/src/main.rs:157-241 | the example's jobs have no cyclic dependency |
| Day21.EvalOperation | 21/src/main.rs:127-132 | an operation whose operands are worked out yields its operator applied to their numbers |
| Day21.ExampleLeft | 21/src/main.rs:157-241 | pppw of the example yells 2 |
| Day21.ExampleRight | 21/src/main.rs:157-241 | sjmn of the example yells 150 |
| Day21.ExampleRootYell | 21/src/main.rs:253-259 | root of the example yells 152 |
| Day22.ParsePath | 22/src/main.rs:367-402 | the loop over the characters reads the same path as the character-by-character definition: digits gathered into a move, 'L' as an anticlockwise and 'R' as a clockwise turn, the trailing number flushed at the end |
| Day22.PathOf | 22/src/main.rs:367-402 | a path that is read has no two moves in a row: every move is followed by a turn |
| Day22.ThenAssociates | 22/src/main.rs:373-383 | pushing steps and then flushing the rest is the same as pushing all the steps before the rest |
| Day22.GatherDigits | 22/src/main.rs:395 | characters that are not turns go to the buffer, one after the other |
| Day22.FlushNumber | 22/src/main.rs:373-383 | a buffer holding the decimal digits of a distance flushes as exactly one move of that distance |
| Day22.ParseRender | 22/src/main.rs:367-402 | reading the text of a path whose moves are separated by turns gives the path back |
| Day22.MoveThenTurn | 22/src/main.rs:385-394 | after the digits of a move, the turn that follows flushes the move and then turns |
| Day22.FlushNonDigit | 22/src/main.rs:375-379 | a buffer that does not end in a digit is no distance, so flushing it panics |
| Day22.TrailingCharacterPanics | 22/src/main.rs:395-399 | a final character that is neither a digit nor a turn, such as a line break, goes to the buffer and makes the final flush panic |
| Day22.MoveAcrossMeaning | 22/src/main.rs:529-606 | a move that does not panic takes no more steps than the distance, every tile it stands on has no wall, and it stops early only in front of a wall |
| Day22.MoveAcross | 22/src/main.rs:524-609 | a move that does not panic and starts on one of the board's parts ends on one of them; `MoveAcrossMeaning` gives the steps it takes |
| Day22.NoDistanceStays | 22/src/main.rs:529 | a move of distance 0 leaves the state as it is |
| Day22.Advance | 22/src/main.rs:536-593 | a step on a part off the board panics; otherwise it moves one tile in the facing direction on the same part, or crosses to another part with `move_part` |
| Day22.TryStep | 22/src/main.rs:530-603 | one pass of the loop either breaks with the move's result or goes on from the next state with one step fewer to take |
| Day22.MoveAcrossMap | 22/src/main.rs:524-609 | the loop returns the state the move definition gives: at most the distance, stopping in front of the first wall |
| Day22.Followed | 22/src/main.rs:629-641 | a turn never fails, keeps the position and the part, and turns the facing a quarter clockwise or three quarters; a move is the move across the map |
| Day22.FollowStep | 22/src/main.rs:629-641 | the step taken is the one the step definition gives |
| Day22.Walk | 22/src/main.rs:643-659 | the loop ends in the state reached by following every step of the path from the first part's start facing right |
| Day22.Walked | 22/src/main.rs:643-659 | a board without parts panics; a walk that does not panic ends on one of the board's parts |
| Day22.TurnsStay | 22/src/main.rs:632-639 | a path of turns only keeps the position and the part and turns the facing by the sum of its quarter turns |
| Day22.WalkOfTurns | 22/src/main.rs:643-659 | a walk of turns only ends at the first part's start, on part 0, facing as far clockwise from right as its turns add up to |
| Day22.CorridorCrossing | 22/src/main.rs:83-191 | leaving a one-row part at its right end, unrotated and flipped, comes back in at its left end |
| Day22.CorridorWraps | 22/src/main.rs:551-564 | at the right edge the step goes over to the connected part instead of one tile on |
| Day22.CorridorMovePart | 22/src/main.rs:83-191 | crossing the right edge of a one-row part connected to itself enters it again at its left tile, still facing right |
| Day22.CorridorExample | 22/src/main.rs:524-609 | on the one-row corridor a move of 5 wraps round once and stops in front of the wall |
| Day22Board.Add | 22/src/main.rs:553 | u32 addition yields a value exactly when the sum fits, and it is the sum |
| Day22Board.Sub | 22/src/main.rs:41-42 | u32 subtraction yields a value exactly when it does not underflow, and it is the difference |
| Day22Board.Mul | 22/src/main.rs:662 | u32 multiplication yields a value exactly when the product fits, and it is the product |
| Day22Board.FacingValue | 22/src/main.rs:244-250 | a facing as a number is below 4 |
| Day22Board.FacingValueInjective | 22/src/main.rs:244-250 | different facings have different numbers |
| Day22Board.TurnClockwise | 22/src/main.rs:611-618 | a clockwise turn adds one to the facing's number, modulo 4 |
| Day22Board.TurnAnticlockwise | 22/src/main.rs:620-627 | an anticlockwise turn subtracts one from the facing's number, modulo 4 |
| Day22Board.TurnsInverse | 22/src/main.rs:611-627 | the two turns undo each other, in either order |
| Day22Board.FourTurns | 22/src/main.rs:611-627 | four clockwise turns, or four anticlockwise ones, give the facing back |
| Day22Board.SingleRotationMeaning | 22/src/main.rs:36-48 | inside a square within the u32 range, a quarter turn never panics and takes the relative position (rx, ry) to (length - 1 - ry, rx) |
| Day22Board.SingleRotation | 22/src/main.rs:36-48 | a position before or beside the square panics; a rotated position's offsets are the quarter-turn clockwise of the original's |
| Day22Board.SingleRotationOutside | 22/src/main.rs:41-42 | a position left of, above or below the square makes the rotation's u32 arithmetic panic |
| Day22Board.Quarters | 22/src/main.rs:28-34 | a rotation stands for fewer than four quarter turns |
| Day22Board.RotateIsQuarters | 22/src/main.rs:50-66 | rotate applies as many quarter turns as its variant names |
| Day22Board.Rotate | 22/src/main.rs:50-66 | a position in a square whose tiles fit the `u32` range stays in the square when rotated |
| Day22Board.TurnStays | 22/src/main.rs:36-48 | one quarter turn keeps a position inside its square |
| Day22Board.RotationsRelative | 22/src/main.rs:50-66 | zero to three quarter turns take the relative position to itself, (l - ry, rx), (l - rx, l - ry) and (ry, l - rx), staying in the square |
| Day22Board.FourRotations | 22/src/main.rs:36-48 | four quarter turns bring every position of the square back |
| Day22Board.RotationExample | 22/src/main.rs:1728-1746 | in the square of side 4 at (9, 5) the quarter turns take (12, 6) to (11, 8), then (9, 7), then (10, 5) |
| Day22Board.MovePartVia | 22/src/main.rs:83-191 | when the connection exists and the crossing succeeds, move_part lands on the crossed position of the connected part, facing away from the entry edge |
| Day22Board.SquareFaceSize | 22/src/main.rs:199-205 | a square face's width and height survive the cast to u32 |
| Day22Board.FlippedInSquare | 22/src/main.rs:141-163 | the flip keeps a position in the square and mirrors its column when leaving sideways and its row when leaving up or down |
| Day22Board.Flipped | 22/src/main.rs:141-163 | facing left or right the position is mirrored across the part's width, facing up or down across its height, the other ordinate kept |
| Day22Board.TranslateShifts | 22/src/main.rs:165-179 | between parts within the i32 range the shift by the difference of the starts does not panic |
| Day22Board.Translate | 22/src/main.rs:165-179 | a shifted ordinate keeps its distance from the start, now from the other start, and a shift within range succeeds |
| Day22Board.RotateRelative | 22/src/main.rs:50-66 | rotating inside a square that fits turns the relative position by the rotation's quarter turns |
| Day22Board.EnteredOnEdge | 22/src/main.rs:102-127 | for each of the sixteen pairs of facing and entry edge, the rotation table followed by the flip brings the exit edge onto the entry edge |
| Day22Board.RotateThenFlip | 22/src/main.rs:132-163 | rotating and then flipping a position of a square face turns and mirrors its relative position, without a panic |
| Day22Board.CrossedShift | 22/src/main.rs:132-179 | between equal square faces the crossed position keeps the turned and mirrored relative position, now relative to the next face |
| Day22Board.CrossedSteps | 22/src/main.rs:132-179 | the crossing is the rotation, then the flip, then the shift by the starts' difference |
| Day22Board.CrossedKeepsOffset | 22/src/main.rs:132-179 | a crossing that does not panic rotated and flipped the position, which keeps its offset from the current part's start as its offset from the next part's start |
| Day22Board.MovePart | 22/src/main.rs:83-191 | a missing connection panics; a crossing lands on the connected part, facing away from the edge it enters |
| Day22Board.MovePartEnters | 22/src/main.rs:83-191 | between equal square faces, leaving over the edge the facing looks at never panics, lands inside the connected face on the named edge and looks away from it |
| Day22Board.CrossedEnters | 22/src/main.rs:102-179 | between equal square faces, a position on the exit edge crosses onto the entry edge of the next face |
| Day22Board.HasWall | 22/src/main.rs:207-219 | the wall check succeeds exactly for positions inside the part's tiles and says whether the tile there is a solid wall |
| Day22Board.Password | 22/src/main.rs:661-663 | the password is 1000 times the row plus 4 times the column plus the facing's number, a panic when it leaves the u32 range |
| Day22Board.PasswordReadsBack | 22/src/main.rs:661-663 | on a board narrower than 250 columns the password gives back the row, the column and the facing |
| Day22Board.PasswordExample | 22/src/main.rs:1716-1726 | row 6, column 8, facing right gives 6032 |
| Day22.RenderHasNoLineBreak | 22/src/main.rs:367-402 | the text of a path has no line break |
| Day22.LineReadsBack | 22/src/main.rs:404-408 | with one final line break dropped, the path line of a file reads back as the path whether or not the file ends in a line break |
| Day23.HasAnyElfAroundMeaning | 23/src/main.rs:162-167 | an elf has a neighbour exactly when another elf stands within one step in both ordinates, on a cell other than its own |
| Day23.Step | 23/src/main.rs:201 | the proposed cell is one orthogonal step from the elf |
| Day23.FirstFree | 23/src/main.rs:189-205 | the search finds the first direction of the order, from the given one on, whose three cells on that side are free, and finds none only when no later side is free |
| Day23.GetProposalMeaning | 23/src/main.rs:169-206 | an elf without neighbours proposes nothing; otherwise it proposes one step towards the first free side of the order, onto a cell no elf holds, and proposes nothing only when no side is free |
| Day23.GetProposal | 23/src/main.rs:169-206 | an elf with no neighbour proposes nothing; a proposal is a free cell one step away |
| Day23.OccurrencesPositive | 23/src/main.rs:220-233 | a proposal that is made occurs at least once |
| Day23.OccurrencesShared | 23/src/main.rs:220-233 | a proposal two elves make occurs at least twice |
| Day23.OccurrencesZero | 23/src/main.rs:220-233 | a proposal nobody makes occurs zero times |
| Day23.GetProposalCounts | 23/src/main.rs:220-233 | the counts hold exactly the proposals that were made, each with the number of elves that made it |
| Day23.Proposals | 23/src/main.rs:91-96 | there is one proposal per elf |
| Day23.ProposalsUpTo | 23/src/main.rs:91-96 | the first n proposals are n long |
| Day23.ProposalsUpToAt | 23/src/main.rs:91-96 | each of the first n proposals is its own elf's proposal |
| Day23.ProposalAt | 23/src/main.rs:95 | elf k's entry is its own proposal, made against all elves and the current order |
| Day23.Round | 23/src/main.rs:88-132 | a round succeeds exactly when no elf is on the edge of the i8 range, and it keeps the number of elves |
| Day23.Settled | 23/src/main.rs:115-124 | settling the first n elves gives n positions |
| Day23.SettledAt | 23/src/main.rs:115-124 | each settled position is that elf's own settling |
| Day23.RoundAt | 23/src/main.rs:100-124 | elf k ends the round on its proposal when nobody else made it, and where it stood otherwise |
| Day23.LonelyElfStays | 23/src/main.rs:170-172 | an elf with no neighbour does not move in the round |
| Day23.SharedProposalCancelled | 23/src/main.rs:98-113 | two elves with the same proposal both stay where they are |
| Day23.MovesAreSteps | 23/src/main.rs:100-124 | an elf that moves takes one step onto its own proposal, which no other elf made, onto a cell no elf held |
| Day23.RoundKeepsDistinct | 23/src/main.rs:115-126 | a round keeps the number of elves and keeps them on distinct cells |
| Day23.RotateLeft | 23/src/main.rs:127 | rotating left by one puts the first direction last and moves every other one forward by one |
| Day23.OrderAt | 23/src/main.rs:72-77 | the order always holds four directions |
| Day23.OrderRotates | 23/src/main.rs:127 | consecutive rounds' orders differ by one left rotation, so the order repeats every four rounds |
| Day23.After | 23/src/main.rs:208-218 | the positions after n rounds, when there are any, keep the number of elves |
| Day23.AfterStep | 23/src/main.rs:213-215 | round n + 1 is a round, with the order of round n, on the positions after n rounds |
| Day23.AfterKeepsDistinct | 23/src/main.rs:115-127 | distinct elves stay distinct round after round |
| Day23.ElvesIterator.constructor | 23/src/main.rs:71-82 | the iterator starts with the given elves and the order North, South, West, East |
| Day23.ElvesIterator.Next | 23/src/main.rs:88-132 | the result is one round on the old state; the elves become its positions and the order rotates left by one, and a panic leaves the state unchanged |
| Day23.RunProcess | 23/src/main.rs:208-218 | run_process gives the positions after num_rounds rounds, and none when the count is negative |
| Day23.AfterStaysPanicked | 23/src/main.rs:214 | once a round has panicked, every later count of rounds has panicked too |
| Day23.NoneSettleStep | 23/src/main.rs:261-272 | when none of the first k rounds settles and round k + 1 does not, none of the first k + 1 settles |
| Day23.MovedRoundUnsettled | 23/src/main.rs:266-268 | a round whose positions differ from the previous ones does not settle |
| Day23.PanickedNeverSettles | 23/src/main.rs:262 | no round at or after a panic settles |
| Day23.FirstRoundNoElvesMove | 23/src/main.rs:254-275 | the result is the first round, counting from 1, whose positions equal the previous round's; none means no such round within the fuel or a panic first |
| Day23Ground.MinOf | 23/src/main.rs:280-281 | the minimum is one of the values and at most each of them |
| Day23Ground.MaxOf | 23/src/main.rs:282-283 | the maximum is one of the values and at least each of them |
| Day23Ground.MinAtMostMax | 23/src/main.rs:280-283 | the minimum is at most the maximum |
| Day23Ground.Xs | 23/src/main.rs:280 | the x ordinates of the elves, in order |
| Day23Ground.Ys | 23/src/main.rs:281 | the y ordinates of the elves, in order |
| Day23Ground.RowCellsCount | 23/src/main.rs:285 | a row of the box holds its width in cells |
| Day23Ground.AreaIsProduct | 23/src/main.rs:285 | the area is the width times the height |
| Day23Ground.BoxCellsCount | 23/src/main.rs:285 | a box holds width times height cells |
| Day23Ground.FirstRow | 23/src/main.rs:285 | a box is its first row and, disjoint from it, the rows below |
| Day23Ground.DistinctCardinality | 23/src/main.rs:287 | elves on distinct positions cover as many cells as there are elves |
| Day23Ground.OccupiedSnoc | 23/src/main.rs:287 | the cells of a list of elves are those of all but the last and the last one's cell |
| Day23Ground.LastNotOccupied | 23/src/main.rs:287 | on distinct positions the last elf's cell is not among the others' |
| Day23Ground.SubsetDifferenceSize | 23/src/main.rs:287 | taking a subset away removes exactly its size |
| Day23Ground.ElvesInBox | 23/src/main.rs:280-283 | every elf lies in the bounding box of the minimum and maximum ordinates |
| Day23Ground.EmptyInBoxValue | 23/src/main.rs:285-287 | within the i8 bounds, the box count less the elves in the box is the number of box cells without an elf |
| Day23Ground.EmptyGroundInBox | 23/src/main.rs:277-288 | for distinct elves within the i8 bounds the answer is the number of bounding-box cells that hold no elf |
| Day23Ground.CountEmptyGroundTiles | 23/src/main.rs:277-288 | no elves panic; otherwise the empty tiles and the elves together fill the bounding box |
| Day23Ground.EmptyGroundByCardinality | 23/src/main.rs:277-288 | the same holds for any elves that cover as many cells as there are elves |
| Day23Ground.FreeCellsOfBox | 23/src/main.rs:280-287 | the box count for the extremes, less the occupied cells, is the number of free cells of the bounding box |
| Day23Ground.CountIsBox | 23/src/main.rs:277-288 | the answer is the box count for the elves' extreme ordinates |
| Day23Ground.EmptyGroundMeaning | 23/src/main.rs:277-288 | for distinct elves the count succeeds exactly when there are elves and the box fits the i8 range, and then it is the number of bounding-box cells that hold no elf |
| Day24.MovedCycles | 24/src/main.rs:280-349 | on the open cells a blizzard never panics and moves one back or one on, modulo the number of open rows or columns, staying on the open cells |
| Day24.NoBlizzardStays | 24/src/main.rs:280-349 | with at least two open rows and two open columns a blizzard always leaves its cell |
| Day24.MovedInverse | 24/src/main.rs:280-349 | a blizzard of the opposite direction undoes a move on the open cells |
| Day24.NewPositions | 24/src/main.rs:286-349 | the moves succeed exactly when every blizzard's move does, one move per blizzard, in the order of the list |
| Day24.NextData | 24/src/main.rs:277-354 | a minute on, when it does not panic, keeps the number of cells |
| Day24.NextWellFormed | 24/src/main.rs:277-354 | in a full grid with its weather on the open cells the next minute never panics and is such a grid again |
| Day24.ListedInside | 24/src/main.rs:57-90 | a blizzard the valley lists is on an open cell of a well-formed valley |
| Day24.GroupsKeepWeatherInside | 24/src/main.rs:144-175 | applying the groups at open cells keeps all weather on the open cells |
| Day24.GroupKeepsWeatherInside | 24/src/main.rs:145-174 | applying one group at an open cell keeps all weather on the open cells |
| Day24.SetKeepsWeatherInside | 24/src/main.rs:44-47 | setting an open cell keeps all weather on the open cells |
| Day24.RemoveKeepsWeatherInside | 24/src/main.rs:100-131 | removing a part keeps all weather on the open cells |
| Day24.RemoveEachKeepsWeatherInside | 24/src/main.rs:171-173 | removing each arrival from its old cell keeps all weather on the open cells |
| Day24.ValleyIterator.constructor | 24/src/main.rs:270-272 | the iterator owns the given valley |
| Day24.ValleyIterator.Next | 24/src/main.rs:277-354 | the valley's cells become the next minute's, with the same size, and a fresh copy of it is returned; a panic exactly when the next minute has none |
| Day24.ClearOnly | 24/src/main.rs:482-488 | the filter keeps exactly the candidate cells holding clear ground, and panics when one lies past the vector |
| Day24.NextPositionsMeaning | 24/src/main.rs:443-489 | from a cell of the grid the result is exactly the grid cells at most one orthogonal step away that hold clear ground, waiting included, and is always defined in a full grid |
| Day24.GetNextPositions | 24/src/main.rs:443-489 | no moves on an empty valley; waiting is offered exactly when the current cell is clear, and every move is at most one step to a clear cell |
| Day24.CandidatesNear | 24/src/main.rs:443-480 | waiting is a candidate and every candidate is at most one step away |
| Day24.CandidatesMeaning | 24/src/main.rs:443-480 | the candidates are exactly the grid cells at most one orthogonal step away, the cell itself included |
| Day24.HeuristicMeaning | 24/src/main.rs:401-403 | the heuristic is the Manhattan distance to the goal for cells up and to the left of it, a panic otherwise, and 0 at the goal |
| Day24.H | 24/src/main.rs:401-403 | a defined estimate is the Manhattan distance to the goal, and it is 0 exactly at the goal |
| Day24.HeuristicConsistent | 24/src/main.rs:401-403 | one step changes the heuristic by at most one |
| Day24Arrivals.IndexInjective | 24/src/main.rs:40 | two cells inside a row with the same index are the same cell |
| Day24Arrivals.GroupsSeparate | 24/src/main.rs:133-142 | when different blizzards make moves that leave their cells, no group's arrival comes from its own cell and no blizzard arrives in two groups |
| Day24Arrivals.ArrivalsLand | 24/src/main.rs:133-176 | when every move leaves its cell, every cell the moves reach ends up holding exactly what arrives there: the one blizzard, or an overlap of the first four in the order of the list |
| Day24Arrivals.GroupsLand | 24/src/main.rs:144-175 | after all groups are applied each destination holds its own group's value |
| Day24Arrivals.LaterGroupKeeps | 24/src/main.rs:144-175 | applying a later group leaves an earlier destination's cell alone |
| Day24Arrivals.GroupAtKey | 24/src/main.rs:145-174 | after a group is applied its destination holds the group, since no arrival leaves it |
| Day24Arrivals.GroupElsewhere | 24/src/main.rs:145-174 | a group leaves every other cell as it was unless a removal there changes it |
| Day24Arrivals.RemoveEachElsewhere | 24/src/main.rs:171-173 | removals at other cells leave a cell alone |
| Day24Arrivals.RemoveEachKeeps | 24/src/main.rs:171-173 | removals that are elsewhere, or change nothing at the cell, leave it alone |
| Day24Arrivals.NotInGroup | 24/src/main.rs:107-130 | removing a blizzard that is not among the arrivals leaves their cell as it is |
| Day24Arrivals.StayingBlizzardVanishes | 24/src/main.rs:145-148 | a single blizzard that arrives at the cell it left is set there and then removed again, leaving clear ground |
| Day24Arrivals.RemoveEachVacates | 24/src/main.rs:171-173 | removing, one by one, the blizzard a cell holds leaves it holding that blizzard or clear ground, and clear ground once one removal is at that cell or it was already clear |
| Day24Arrivals.GroupVacates | 24/src/main.rs:145-174 | a group whose destination is another cell does the same to a cell holding a blizzard only that blizzard leaves |
| Day24Arrivals.GroupsVacate | 24/src/main.rs:144-175 | all groups, none of them set at the cell, leave it holding its blizzard or clear ground, and clear ground once some group removes it |
| Day24Arrivals.MoveArrives | 24/src/main.rs:133-142 | every move is listed among the arrivals at its destination, with its blizzard and its old cell |
| Day24Arrivals.GroupsLeaving | 24/src/main.rs:133-142 | in the grouped moves, a cell no blizzard moves to is no destination, and its one departing blizzard is among the arrivals |
| Day24Arrivals.VacatedCellClears | 24/src/main.rs:133-176 | a cell holding one blizzard, which moves away while no blizzard moves in, is clear ground once every group is applied |
| Day24Parse.ParseCellsOk | 24/src/main.rs:191-214 | a row's characters parse exactly when each is a map character and the id counter lasts, giving one part per character |
| Day24Parse.ParseCellDecoded | 24/src/main.rs:193-211 | each parsed cell is its character decoded, a blizzard numbered by the count of blizzards before it |
| Day24Parse.BlizzardCountAtLeast | 24/src/main.rs:196-211 | a text starting with a blizzard counts at least one blizzard |
| Day24Parse.ParseCellsError | 24/src/main.rs:212 | the first character that is no map character is the parse error, when the id counter lasts until then |
| Day24Parse.BlizzardCountPrefix | 24/src/main.rs:186 | the blizzard count grows strictly past each blizzard |
| Day24Parse.IdsDistinct | 24/src/main.rs:186-211 | the blizzards of a parsed map have pairwise different ids |
| Day24Parse.Parse | 24/src/main.rs:185-229 | a parsed grid has a positive width |
| Day24Parse.ParseMeaning | 24/src/main.rs:185-229 | the grid is every non-empty row's cells decoded and numbered in order, as wide as the first row and as high as the row count |
| Day24Parse.ParseError | 24/src/main.rs:212-218 | a character that is no map character, reached before the counter runs out, makes the whole text an error |
| Day24Parse.NoRowIsPanic | 24/src/main.rs:220 | a text with no non-empty line panics at the first row |
| Day24Parse.FromStr | 24/src/main.rs:185-229 | from_str panics, fails or builds a fresh valid valley exactly as the parse does, holding the parsed cells and size |
| Day24Valley.CoordinateIndex | 24/src/main.rs:39-55 | get_coordinate inverts the index y * width + x, and the index inverts get_coordinate on cells inside a row |
| Day24Valley.GetCoordinate | 24/src/main.rs:49-55 | the remainder is a column inside the row; `CoordinateIndex` shows the row-major index gives back the index |
| Day24Valley.IndexInGrid | 24/src/main.rs:40 | a cell of the grid has its index inside a vector of width times height cells |
| Day24Valley.RemoveFirst | 24/src/main.rs:110-120 | removing a slot that is present shortens the slots by one, and a slot that is absent changes nothing |
| Day24Valley.RemovedMeaning | 24/src/main.rs:100-131 | a cell holding exactly the part is cleared; an overlap loses the first slot holding the blizzard and becomes clear ground once no slot is left; any other cell is untouched |
| Day24Valley.ClearedSlots | 24/src/main.rs:110-120 | emptying the first slot holding a blizzard removes its first occurrence from the slots |
| Day24Valley.EmptiedSlots | 24/src/main.rs:122-126 | an overlap becomes clear ground exactly when no slot is left, and keeps its slots otherwise |
| Day24Valley.PresentFirst | 24/src/main.rs:110-119 | removal from slots that start with the first slot takes that slot when it matches and otherwise searches the rest |
| Day24Valley.SetAt | 24/src/main.rs:44-47 | setting a cell keeps the number of cells |
| Day24Valley.RemoveAt | 24/src/main.rs:100-131 | removing a part keeps the number of cells |
| Day24Valley.SlotsAt | 24/src/main.rs:74-83 | an overlap lists one entry per slot |
| Day24Valley.SlotsAtMeaning | 24/src/main.rs:74-83 | the entries of an overlap are exactly its slots as blizzards at its cell |
| Day24Valley.BlizzardsMeaning | 24/src/main.rs:57-90 | get_blizzards lists exactly the blizzards the vector holds, alone or in an overlap, each at its cell |
| Day24Valley.SinglesMeaning | 24/src/main.rs:58-67 | the first list holds exactly the single blizzards of the cells scanned, at their cells |
| Day24Valley.OverlappingMeaning | 24/src/main.rs:69-87 | the second list holds exactly the blizzards in the overlaps of the cells scanned, at their cells |
| Day24Valley.OverlapListed | 24/src/main.rs:69-87 | every overlap slot among the cells scanned is listed at its cell |
| Day24Valley.ListedOverlap | 24/src/main.rs:69-87 | every listed overlap entry comes from an overlap slot at its cell |
| Day24Valley.AtIndex | 24/src/main.rs:49-55 | a cell inside a row has index i exactly when it is the cell of i |
| Day24Valley.BlizzardsInside | 24/src/main.rs:57-90 | every listed entry is a blizzard at a cell of the vector |
| Day24Valley.GroupedMeaning | 24/src/main.rs:134-142 | the map has one entry per destination, listing exactly the blizzards that arrive there in order; the destinations are listed each once |
| Day24Valley.ArrivalsAbsent | 24/src/main.rs:134-142 | a cell no move reaches has no arrivals |
| Day24Valley.SlotOf | 24/src/main.rs:150-167 | the slot of an arrival exists exactly when the arrival does |
| Day24Valley.RemoveEach | 24/src/main.rs:171-173 | removing each arrival from its old cell keeps the number of cells |
| Day24Valley.ApplyGroup | 24/src/main.rs:145-174 | applying one group keeps the number of cells |
| Day24Valley.ApplyGroups | 24/src/main.rs:144-175 | applying all groups keeps the number of cells |
| Day24Valley.GroupsOfMoves | 24/src/main.rs:134-142 | the groups of blizzard moves inside the vector have every destination and every old cell inside it |
| Day24Valley.ArrivalsFrom | 24/src/main.rs:136-141 | every arrival at a cell comes from a move of that blizzard from its old cell to that cell |
| Day24Valley.GroupMoves | 24/src/main.rs:134-142 | the loop builds the grouped map and the destinations in the order they first appear |
| Day24Valley.Valley.constructor | 24/src/main.rs:224-228 | the valley holds the given cells and size, and its rows are not empty |
| Day24Valley.Valley.SetPart | 24/src/main.rs:44-47 | only the given cell changes, and it now holds the part |
| Day24Valley.Valley.RemovePart | 24/src/main.rs:100-131 | the cells become those with the part removed at the position, the size unchanged |
| Day24Valley.Valley.SetBlizzards | 24/src/main.rs:133-176 | the cells become those with every group applied, destinations in the order they first appear, the size unchanged |
| Day24Valley.Valley.ApplyOne | 24/src/main.rs:145-174 | the cells become those with one group applied, the size unchanged |
| Day25.DigitValue | 25/src/main.rs:30-37 | a character is a digit exactly when it is one of = - 0 1 2, and its value lies in -2..2 |
| Day25.DigitChar | 25/src/main.rs:82-89 | a remainder has a character exactly when it lies in -2..2, and reading that character gives the remainder back |
| Day25.FromStr | 25/src/main.rs:25-44 | parsing succeeds exactly when every character is a SNAFU digit |
| Day25.LittleEndianAppend | 25/src/main.rs:52-58 | a remainder pushed after the others weighs 5 to the power of their count |
| Day25.LittleEndianUpdate | 25/src/main.rs:62-75 | changing one remainder by k changes the value by k times its power of 5 |
| Day25.CarryKeepsValue | 25/src/main.rs:64-71 | lowering a remainder by 5 and raising the next by 1 keeps the value |
| Day25.Render | 25/src/main.rs:81-92 | balanced remainders give one character each, the character of that remainder |
| Day25.RenderReverseParses | 25/src/main.rs:77-92 | writing balanced remainders most significant first and parsing the text gives their value back |
| Day25.DivisionStep | 25/src/main.rs:53-55 | one truncating division by 5 keeps the value of the lower part and the quotient together |
| Day25.RemainderStep | 25/src/main.rs:52-58 | one pass of the first loop keeps the value of the remainders and the quotient together |
| Day25.Base5 | 25/src/main.rs:52-58 | base-5 digits are between 0 and 4 |
| Day25.DigitsStep | 25/src/main.rs:53-57 | a truncating division step takes the lowest base-5 digit of the quotient's size, with the value's sign |
| Day25.NegativeExamples | 25/src/main.rs:62-89 | -1 has no remainder below -2, but -3 has the remainder -3 |
| Day25.NegatedInRange | 25/src/main.rs:77-89 | negated base-5 digits, reversed, all have a character exactly when no digit is above 2 |
| Day25.Remainders | 25/src/main.rs:49-58 | the remainders are worth the value, are the base-5 digits of its size with its sign, are empty exactly for 0, lie in 0..4 (or -4..0 for a negative value), and end in a non-zero digit |
| Day25.Balance | 25/src/main.rs:62-75 | the carry pass keeps the value; remainders of a non-negative value become digits in -2..2 whose leading one is 1 or 2, and a negative value's remainders are left as they are |
| Day25.Carry | 25/src/main.rs:64-72 | one pass keeps the value: a remainder above 2 is lowered by 5 and the next raised by 1, or a 1 is pushed after the last |
| Day25.WriteDigits | 25/src/main.rs:81-92 | writing succeeds exactly when every remainder lies in -2..2, and gives their characters in order |
| Day25.Fmt | 25/src/main.rs:47-96 | parsing a written number gives it back; 0 is written as the empty string, a positive number always as digits led by 1 or 2, and a negative one exactly when no base-5 digit of its size is above 2 |
| Day25.Add | 25/src/main.rs:98-106 | the sum is the sum of the values, a panic when it leaves the i64 range |
| Day25.Values | 25/src/main.rs:108-112 | the values of the numbers, in order |
| Day25.SumAll | 25/src/main.rs:108-112 | the empty sum is 0, and a sum that does not overflow has the sum of the values |
| Day25.SumAllIsSum | 25/src/main.rs:108-112 | the fold from 0 succeeds exactly when every partial sum fits i64, and is then the sum of the values |
| Day25.SumAllAppend | 25/src/main.rs:108-112 | the sum of two joined lists is the sum of their sums |
| Day25.ParseFuelRequirements | 25/src/main.rs:129-135 | one number per non-empty line |
| Day25.ParseAll | 25/src/main.rs:133-134 | all lines parse exactly when each does, giving each line's number in order |
| Day25.CanonicalPositive | 25/src/main.rs:25-44 | a text of digits led by 1 or 2 is a positive number |
| Day25.CanonicalUnique | 25/src/main.rs:25-44 | two texts of digits led by 1 or 2 with the same value are the same text |
| Day25.SameDigits | 25/src/main.rs:25-44 | two balanced last digits with the same total over the same multiple of 5 are the same |
| Day25.ParseExample | 25/src/main.rs:145-155 | "2=-01" reads as 976 |
| Day25.TableRow | 25/src/main.rs:161-184 | a text led by 1 or 2 is written for a value exactly when it is the one text led by 1 or 2 that reads as that value |
| Day25.DisplayExample1 | 25/src/main.rs:162 | 1 is written "1" |
| Day25.DisplayExample2 | 25/src/main.rs:163 | 2 is written "2" |
| Day25.DisplayExample3 | 25/src/main.rs:164 | 3 is written "1=" |
| Day25.DisplayExample4 | 25/src/main.rs:165 | 4 is written "1-" |
| Day25.DisplayExample5 | 25/src/main.rs:166 | 5 is written "10" |
| Day25.DisplayExample6 | 25/src/main.rs:167 | 6 is written "11" |
| Day25.DisplayExample7 | 25/src/main.rs:168 | 7 is written "12" |
| Day25.DisplayExample8 | 25/src/main.rs:169 | 8 is written "2=" |
| Day25.DisplayExample9 | 25/src/main.rs:170 | 9 is written "2-" |
| Day25.DisplayExample10 | 25/src/main.rs:171 | 10 is written "20" |
| Day25.DisplayExample15 | 25/src/main.rs:172 | 15 is written "1=0" |
| Day25.DisplayExample20 | 25/src/main.rs:173 | 20 is written "1-0" |
| Day25.DisplayExample2022 | 25/src/main.rs:174 | 2022 is written "1=11-2" |
| Day25.Reads2022 | 25/src/main.rs:174 | "1=11-2" reads as 2022 |
| Day25.DisplayExample12345 | 25/src/main.rs:175 | 12345 is written "1-0---0" |
| Day25.Reads12345 | 25/src/main.rs:175 | "1-0---0" reads as 12345 |
| Day25.PrefixOfLongExample | 25/src/main.rs:176 | "1121-11" reads as 20106, the first part of the long example |
| Day25.DisplayExample314159265 | 25/src/main.rs:176 | 314159265 is written "1121-1110-1=0" |
| Day25.LongExample | 25/src/main.rs:176 | "1121-1110-1=0" reads as 314159265 |
| Day25.DisplayExample4890 | 25/src/main.rs:177 | 4890 is written "2=-1=0" |
| Day25.Reads4890 | 25/src/main.rs:177 | "2=-1=0" reads as 4890 |

## Left out

### Plumbing, rendering and libraries

- Input loading, the `main` functions, command-line arguments, `env_logger`, `log` calls and printing: they only read the input file and print answers.
- The `Display` impls of the day 17 chamber (17/src/simulator/chamber.rs:24-64, 17/src/main.rs:72-112), the day 24 valley (24/src/main.rs:232-261), the day 23 elves (23/src/main.rs:39-63) and the day 22 tokens (22/src/main.rs:279-287): rendering only.
- nalgebra matrices (days 8, 12 and 22) are sequences of rows, and the library itself is not modelled.
- Day 22 cube folding through petgraph graph isomorphism (`create_graph`, `get_connections`, `create_cube_map`, 22/src/main.rs:681-1204): it rests on a foreign graph library.
- Day 22 board building (`parse_map` and `create_net`, 22/src/main.rs:289-365 and 418-464; `create_flat_map`, 22/src/main.rs:466-522): it is nalgebra slicing. The walk takes the board as a value.

### Parsing of puzzle inputs

- Day 11 `parse_monkey`, day 12 `parse_height_map`, day 13 `parse_packets`/`parse_packet_pair`, day 19 `parse_blueprint(s)` (19/src/main.rs:155-219) and day 23 `parse_elves` (23/src/main.rs:143-160): these turn the input into the values the modelled operations take. The solvers take those values as parameters.

### Day 17: the rock simulation

- Cycle detection for 10^12 rocks is absent from the code. Only `cycle_height` and `get_adjusted_height` are modelled.
- 17/src/simulator.rs:91-94 builds a `Chamber` without `cycle_height`, and 17/src/simulator.rs:137 and 188 pass a `u64` width into a `u16` parameter. The model uses the evident intent: width 7 and `cycle_height` 0.
- 17/src/main.rs is a single-file copy of the same logic as the simulator modules. It is modelled once, and the "## Model" rows cite only the simulator modules. The same functions sit in 17/src/main.rs at: `RockIterator::next` 24-41, the `Coordinate` ordering 51-65, `parse_jet_pattern` 119-128, `create_rock` 130-222, `get_tower_height` 224-229 (the same expression as `Chamber::get_height`), `is_blocked_below`/`left`/`right` 231-272, `run_simulation` 274-328, the Moore neighbourhood iterator 330-405, `boundry_trace` 416-482 and `_boundry_trace` 484-515.
- Day17Coordinate.Coordinate: ordinates are unbounded, where the source's `Ordinate` is `u16` (17/src/coordinate.rs:3). The overflow of heights past 65535 is not modelled. It can only happen after about 16384 rocks, because `Day17Simulator.RunSimulation` proves a height of at most 4 per rock and requires fewer than 65536 rocks.
- Day17Simulator.TraceBoundary and Day17Simulator.BoundaryTrace take a step budget (`traceFuel` of `RunSimulation`) and have an `OutOfFuel` outcome that the source lacks. The source walks until it returns to the start. No budget is proved to suffice. `TraceMeaning` and `PruneMoreFuel` prove that a larger budget gives the same result once a trace has finished.
- Day17Simulator.RunSimulation: that pruning is harmless is not proved. The claim is that the pruned chamber has the same height and gives every later rock the same landing. The simulation is proved equal to `Stack`, which prunes exactly as the source does, but the unpruned tower is not related to it.
- Day17Simulator.IsBlockedBelow requires the first cell of the rock to be one of its lowest, as `create_rock` lays out every shape. Otherwise the source's `y - 1` on another cell would underflow.
- The example height of 3068 after 2022 rocks on the 40-jet pattern is not proved: the verifier cannot unfold two thousand simulated rocks.

### Fixed-width integers

- Day01.TotalCalories: the `u32` sums of calories are unbounded.
- Day01.TopThreeSum: the `u32` sum of the three largest totals is unbounded.
- Day03.ParseRucksack: `Rucksack::from_str` splits the line at half its length in bytes; the model splits at half its length in characters, which agrees for the ASCII letters of the puzzle.
- Day06.FindStart: the `u32` conversion of the index (`try_into().unwrap()`) is not modelled; the position is a `nat`.
- Day07.DirectorySize: the `u32` sums of file sizes are unbounded.
- Day08.ScenicScore: the `i32` product of the four viewing distances (8/src/main.rs:149) is unbounded here; the source would overflow on a grid of roughly 430 by 430 trees, which the model does not reproduce. Heights themselves only hold a digit or the -1 of the rolling maximum, so they cannot overflow.
- Day09.Rope.MoveHead: distances are parsed as `i16`, but rope positions are unbounded.
- Day10.RunProgram: the `i32` register and signal strengths are unbounded.
- Day11.Inspections: the `u64` inspection counts are unbounded. The `u64` worry arithmetic and the product of the test values are modelled as `None` on overflow.
- Day11.TurnSpec: the source keeps the monkeys in a map keyed by the id parsed from "Monkey n:"; the model keeps them in a list and takes each monkey's id to be its position in it, as in every puzzle input.
- Day13.GetNumberOfCorrectPairs: the `u16` total of the correct pair indices is unbounded.
- Day13.Parse: the source slices the packet text by byte index; the model slices by character index, which agrees for the ASCII brackets, commas and digits of packets.
- Day15: the `i64` coordinates and their arithmetic are unbounded.
- Day16.GetAllStates: the `u32` flow totals are unbounded. A `u32` overflow of `distance + 1` is modelled.
- Day19: the `u16` resource counts and robot counts during the search are unbounded. The quality sum is modelled as `None` when it exceeds `u16`.
- Day20.Mix requires fewer than 0x8000 values, because the length is cast to `i16` in the source; longer inputs are not modelled.
- Day25.FromStr: the `i64` overflow of `5.pow(exponent)` and of the digit sum, for texts of 28 or more digits, is not modelled. `Add` and `SumAll` model the `i64` overflow of addition as `None`.

### Iteration order of hash maps

- Day 16: the bit of each valve and the order in which `visit` meets the neighbours come from `HashMap` iteration (16/src/main.rs:117 and 173-177). The model fixes one order, `walk`, for both. Nothing claims that the answer is independent of the order.
- Day 24: `set_blizzards` iterates a `HashMap` (24/src/main.rs:144). The model uses the order in which destinations first appear.
- Day 3: `get_badge` picks an element of a `HashSet`. The model picks any element, with a let-such-that.
- Day 16: the order of the state keys in the elephant search is any enumeration of the keys.

### Searches and the source's tests

- Day 24 `find_quickest_time_to_goal` (24/src/main.rs:390-441): the A* search over cloned valleys is left out. Its heuristic `h` and `get_next_positions` are modelled.
- Day 18 calls `tree.get_max_point()` (18/src/main.rs:93), which octree.rs does not define. The model reads the tree's upper corner.
- Worked answers not proved, because each needs a whole search or simulation evaluated inside the verifier:
  - day 8: 21 visible trees, and the four directional matrices;
  - day 10: strengths 420 to 3960;
  - day 12: 31 and 29;
  - day 15: the distress beacon (14, 11);
  - day 16: 1651 and 1707;
  - day 17: 3068;
  - day 18: 64 faces;
  - day 19: 9, 12 and 33;
  - day 22: 6032.
- Tests that read a `test.txt` file (days 10, 11, 14, 21 and 22): the file is not part of this model. The examples are restated from the puzzle where their values are known.
- Day 14: the example's twenty rock points are given as a set, but their count is not proved.

### Contracts that are weaker than the source

- Day05.RunInstruction, Day05.RunInstruction9001 and Day05.RunProcedure say nothing about the stacks after a panic, where the program ends.
- Day12.FindSingleDestinationShortestPath does not say when the result is `None`; the source gives `None` when there is no start point. The `u32` overflow of `distance + 1` is modelled.
- Day16.Dijkstra states `None` in one direction only: a closed tunnel map that contains the source gives a result.
- Day21.ExecutionOrder and Day21.GetRootYell require a rank over the whole job map, a witness that no job depends on itself. The source loops forever on a cycle. `EvalRankFree` shows the value does not depend on the witness. A cycle among jobs that root does not need is excluded, although the source tolerates it.
- Day22Board.HasWall checks the column against the row's own length, where the source's matrix is rectangular. The two agree on rectangular boards, the only kind the source builds.
- Day23.FirstRoundNoElvesMove takes a round budget below 2^32, the range of the source's `u32` counter. When it answers `None`, no round up to the budget settles.
- Day18Octree.InsertKeepsOthers is stated only for points inside the tree's box.

## Findings

| source | as written | input that shows it | evidently intended | confidence | as-written member | corrected member |
|---|---|---|---|---|---|---|
| 15/src/main.rs:155-157 | `if x_min >= x_max { continue; }` skips a sensor whose reach meets the row in exactly one cell, although its span `[x_min, x_max + 1)` holds that cell | a sensor at (0, 0) whose beacon is at (0, 1), on row 1: the sensor is skipped, its beacon is still subtracted, and the count is -1 | skip only empty spans (`x_min > x_max`), which gives 0 | not executed; high | Day15.TouchingSensorMiscounts | Day15.TouchingSensorFixedCount |
| 22/src/main.rs:395-399 | the catch-all arm puts every character other than 'L' and 'R' into the number buffer, and `parse_board_map` (22/src/main.rs:404-408) passes the raw text after the blank line | a board file ending in a line break, so that the path text is "10R5\n": the final buffer "5\n" fails `parse::<u32>()` and `unwrap` panics | read the path line without its final line break | not executed; medium, since it holds only when the input file ends in a line break | Day22.TrailingCharacterPanics | Day22.LineReadsBack |
