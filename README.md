# Game of Life CLI, grid storage, XOR checksum and matrix helpers in Dafny

This project models five pieces of a repository of high-performance computing
exercises.

- **`src/cli.cc`**: the Game-of-Life CLI session (`cli.dfy`, module `Session`). It keeps
  three settings: printing, stability check and delay. It wraps user coordinates onto the
  torus `[1, height] × [1, width]` with C++'s truncating `%`, and stamps the glider, toad,
  beacon and R-pentomino patterns. It runs a bounded generation loop that can stop early,
  and stamps `n` random patterns from a supplied sequence of draws.
- **The engine the CLI drives** (`engine.dfy`, module `Engine`). `src/include/World.h`
  only declares it, so the model is an abstract `World` class:
  - the engine's step and stability verdict are values fixed at construction;
  - ghost fields record every `set` call and every `evolve` call.
- **`src/main.cc`**: the command front end (`commands.dfy`, module `Commands`).
  - `trim`, `split`, `::tolower` and the 16-entry command map.
  - The per-command token-count, `std::stoi` and range checks, as a pure classifier from
    a token list to the CLI call or the error reported instead.
- **C++ integer text** (`decimal.dfy`, module `Decimal`). This covers what `operator<<`
  writes for an `int` and what `std::stoi` and `istream >> int` read back: leading white
  space, one sign, the longest digit run, and failure outside the 32-bit range. It is
  shared by the front end and the grid loader.
- **`src/World.cc`**, the grid World (`storage.dfy`, module `Storage`):
  - the zero grid;
  - the text format `save` writes;
  - the path constructor that reads the format back, with the file contents given as a
    string;
  - the stub `evolve`, `is_stable` and `load`.
- **`SIMD/src/CheckSum.cpp`**, the XOR checksum (`checksum.dfy`, module `CheckSum`). It
  is computed three ways, and the model proves that the results agree:
  - byte by byte;
  - four bytes at a time in an `unsigned int`, for either byte order;
  - sixteen bytes at a time in an SSE register.
- **`NeuralNetworks/code/src/Utils.cpp`**: `Transpose`, both `Zeros` overloads and the
  copy-back step of `Shuffle` (`utils.dfy`, module `MatrixUtils`).

Two pieces of code disagree with their stated intent. Each is modelled as written and in
corrected form (see "## Findings"):

- the `\v`/`\f` line in `main`;
- the 16-byte overread in the SSE loop.

## Model

| member | source | states |
|---|---|---|
| Session.TruncRem | src/cli.cc:54-55 | C++ `a % n` for `n > 0` lies strictly between `-n` and `n`, and a non-zero result has the sign of `a` |
| Session.TruncRemMultiple | src/cli.cc:54-55 | `a` minus its truncated remainder is a multiple of `n` |
| Session.Wrap | src/cli.cc:54-57 | the wrapped row (or column) is always in `[1, n]` |
| Session.WrapIsEuclidean | src/cli.cc:54-57 | the truncating-`%` wrap equals `(v - 1) mod n + 1` with the Euclidean remainder |
| Session.WrapIdentity | src/cli.cc:54-57 | wrapping leaves a coordinate already in `[1, n]` unchanged |
| Session.WrapIdempotent | src/cli.cc:88-91 | wrapping a wrapped coordinate again changes nothing |
| Session.WrapShift | src/cli.cc:99-106 | wrapping the wrapped anchor plus an offset lands where wrapping the raw sum lands |
| Session.WrapInjective | src/cli.cc:99-106 | two coordinates less than `n` apart wrap to different cells |
| Session.Offsets | src/cli.cc:92-170 | the offsets of the four patterns, as the `coords` arrays list them: five cells for the glider and the methuselah, six for the toad and the beacon |
| Session.Placed | src/cli.cc:99-106 | a stamp writes one cell per offset, each inside the grid |
| Session.PlacedIsWrappedSum | src/cli.cc:88-106 | the k-th stamped cell is the wrapped sum of the raw anchor and the k-th offset |
| Session.StampCellsDistinct | src/cli.cc:92-179 | on a grid at least as large as the pattern, the stamped cells are pairwise distinct, so a stamp turns on exactly as many cells as the pattern has offsets |
| Session.DistinctCount | src/cli.cc:99-107 | pairwise distinct cells form a set of the same size |
| Session.DrawnCellsCount | src/cli.cc:185-198 | with kinds in 0..3 and anchors on the grid, as the distributions produce, `n` rounds write between `5n` and `6n` cells |
| Session.RunLength | src/cli.cc:32-44 | the number of `evolve` calls of `run(gen)` is never more than `gen`, and none for a count that is not positive |
| Session.RunLengthUnchecked | src/cli.cc:32-44 | with the stability check off, `run(gen)` evolves exactly `gen` times, or none when `gen` is negative |
| Session.RunLengthStopsAtFirstStable | src/cli.cc:32-44 | `run(gen)` evolves at most `gen` times. With the check on, every generation passed was reported unstable, and an early stop happens only at a generation reported stable |
| Session.Cli.constructor | src/cli.cc:5 | the session starts with a 100 ms delay, printing off and the stability check off |
| Session.Cli.Create | src/cli.cc:7 | a fresh all-dead World of the given size, driven by the same engine; the settings are unchanged |
| Session.Cli.Print | src/cli.cc:15-20 | printing is on exactly when the setting is 1; nothing else changes |
| Session.Cli.Delay | src/cli.cc:22-24 | the delay is stored as given; nothing else changes |
| Session.Cli.Stability | src/cli.cc:26-28 | the check is on exactly when the argument is 1; nothing else changes |
| Session.Cli.Run | src/cli.cc:30-48 | the number of `evolve` calls is `RunLength` of the gen count and check flag. The live cells are that many iterations of the engine step, and no cell is set |
| Session.Cli.Set | src/cli.cc:50-61 | with `alive <= 0` nothing changes. Otherwise there is exactly one `world.set` call, on the wrapped cell, which then is alive, and no live cell is cleared |
| Session.Cli.Get | src/cli.cc:69-78 | the value reported is 1 exactly when the wrapped cell is alive, and 0 otherwise |
| Session.Cli.StampPattern | src/cli.cc:99-107 | the stamping loop issues the `world.set` calls of `Placed` in order and only adds live cells |
| Session.Cli.Glider | src/cli.cc:84-108 | exactly the five wrapped glider offsets are set, in order; every cell alive before is still alive |
| Session.Cli.Toad | src/cli.cc:110-131 | exactly the six wrapped toad offsets are set, in order; every cell alive before is still alive |
| Session.Cli.Beacon | src/cli.cc:133-156 | exactly the six wrapped beacon offsets are set, in order; every cell alive before is still alive |
| Session.Cli.Methuselah | src/cli.cc:158-180 | exactly the five wrapped R-pentomino offsets are set, in order; every cell alive before is still alive |
| Session.Cli.StampDrawn | src/cli.cc:193-198 | one round of the `switch`: the stamp of the drawn kind at the drawn anchor, and nothing for a kind outside 0..3 |
| Session.Cli.Random | src/cli.cc:182-200 | `random(n)` makes exactly `n` rounds, the i-th stamping pattern `draws[i].kind` at anchor `draws[i]`; the set calls are the concatenated stamps |
| Engine.IterateNext | src/include/World.h:36 | the live cells after `k + 1` generations are one engine step after `k` generations |
| Engine.World.constructor | src/include/World.h:27 | a new World has the given size and engine, no live cell and no recorded call |
| Engine.World.Get | src/include/World.h:53 | `get(x, y)` is 1 for a live cell and 0 for any other |
| Engine.World.Set | src/include/World.h:49 | `set(x, y)` records the call and makes an in-grid cell alive |
| Engine.World.Evolve | src/include/World.h:36 | `evolve()` replaces the live cells by one engine step |
| Engine.World.IsStable | src/include/World.h:38 | `is_stable()` gives the engine's verdict on the current live cells |
| Decimal.Show | src/World.cc:93-97 | what `operator<<` writes for an int is never empty |
| Decimal.ShowAll | src/World.cc:96-98 | one text per value, the value's `operator<<` text, in order; used for a saved row and for typed arguments |
| Decimal.DigitChar | src/World.cc:97 | a digit value becomes the character that denotes it |
| Decimal.LeadingSpaces | src/World.cc:40 | the white space a stream read skips: all `isspace`, and followed by a non-space or the end |
| Decimal.LeadingDigits | src/main.cc:105 | the longest run of digits at the front |
| Decimal.ReadSigned | src/main.cc:105 | a successful read consumes at least one character and yields a 32-bit value |
| Decimal.ReadInt | src/World.cc:40 | `iss >> val` after white space: a successful read consumes at least one character and yields a 32-bit value |
| Decimal.Stoi | src/main.cc:105 | `std::stoi` returns a 32-bit value or fails |
| Decimal.ShowNat | src/World.cc:97 | a non-negative value is written as digits denoting it |
| Decimal.ShowNoSpace | src/World.cc:97 | what `operator<<` writes contains no white space |
| Decimal.ShowFirst | src/World.cc:97 | what `operator<<` writes starts with '-' or a digit |
| Decimal.LeadingDigitsOfRun | src/World.cc:40 | reading digits stops at the first non-digit |
| Decimal.NegativeRead | src/World.cc:40 | a '-' and the digits of `-v` read back as `v` |
| Decimal.PositiveRead | src/World.cc:40 | the digits of `v >= 0` read back as `v` |
| Decimal.ReadSignedShow | src/World.cc:40 | with no white space before it, the text of an int reads back as that int, consuming exactly that text |
| Decimal.ReadShow | src/World.cc:40 | reading what `operator<<` wrote gives the value and stops right after the last digit |
| Decimal.StoiShow | src/main.cc:105 | `std::stoi` of a written int gives the int back |
| Commands.FirstKept | src/main.cc:31 | `find_first_not_of(" \t\n\r")`: npos only for an all-trim-space line, otherwise the first kept index, with only trim space before it |
| Commands.LastKept | src/main.cc:35 | `find_last_not_of(" \t\n\r")`: npos only for an all-trim-space line, otherwise the last kept index, with only trim space after it |
| Commands.Trim | src/main.cc:30-37 | the result is empty exactly for an all-space/tab/LF/CR line. Otherwise it starts and ends with a kept character and is the substring of the line between a trim-space prefix and suffix |
| Commands.TrimIdempotent | src/main.cc:30-37 | trimming a trimmed line changes nothing |
| Commands.TrimKeepsInterior | src/main.cc:36 | every character between the first and last kept character keeps its place in the trimmed line, unchanged |
| Commands.TrimAllSpace | src/main.cc:30-37 | the trimmed line is all white space exactly when the line is |
| Commands.WordLength | src/main.cc:43-45 | the length of the run of non-white-space at the front |
| Commands.StripAppend | src/main.cc:40-47 | removing white space distributes over concatenation |
| Commands.Split | src/main.cc:40-47 | `split`: a word at a time, each the maximal non-white-space run after skipping white space |
| Commands.SplitWords | src/main.cc:40-47 | every token is non-empty and free of white space; there are none exactly when the input is all white space; the tokens concatenated are the input with its white space removed |
| Commands.SplitAreWords | src/main.cc:40-47 | every token `split` yields is non-empty and free of white space |
| Commands.SplitConcat | src/main.cc:40-47 | the tokens concatenated are the input with all white space removed |
| Commands.SplitLeadingSpace | src/main.cc:40-47 | a space in front of a word does not change the tokens |
| Commands.SplitJoinWords | src/main.cc:40-47 | splitting words joined by single spaces gives back exactly those words, in order |
| Commands.SplitInterleave | src/main.cc:40-47 | words with any white space around them, and some between each two, split back into exactly those words: a run of non-white-space characters is never cut or joined to the next |
| Commands.Lower | src/main.cc:88 | `::tolower` keeps the length, leaves no upper-case letter, and changes only upper-case letters, by +32 |
| Commands.LowerNoUpper | src/main.cc:88 | lower-casing is the identity exactly on strings with no upper-case letter |
| Commands.LowerIdempotent | src/main.cc:88 | lower-casing twice is lower-casing once |
| Commands.NameOf | src/main.cc:50-67 | every verb's name is a lower-case key of the command map that maps back to it |
| Commands.CommandTableIsNameOf | src/main.cc:50-67 | the constant `CommandTable` (`command_map`) has as keys exactly the verbs' names, each mapping to its verb |
| Commands.CommandTableSize | src/main.cc:50-67 | the map holds 16 entries |
| Commands.ParseArgs | src/main.cc:105-106 | `std::stoi` on every argument: success gives one 32-bit value per token, each what `stoi` reads from it; failure means some token made `stoi` throw |
| Commands.CheckArgs | src/main.cc:101-285 | the range checks of the int-argument verbs: an accepted call is of that verb, carries exactly the values read, and is in range |
| Commands.ClassifyVerb | src/main.cc:99-311 | after the lookup: an accepted call is of the named verb, has a token count it takes, and is valid. Its numbers are those `stoi` reads, and a load/save path is the second token |
| Commands.Classify | src/main.cc:84-311 | unknown-command exactly when the lower-cased first token is not in the map. An accepted call is named by that token, is valid, and has a token count its verb takes. Its numbers are what `stoi` reads from the argument tokens, and a load/save path is the second token |
| Commands.ClassifyIgnoresCase | src/main.cc:88-91 | the outcome does not depend on the case of the command name |
| Commands.ClassifyWrongCount | src/main.cc:102-276 | a known verb with a token count it does not take is refused with its usage message |
| Commands.CheckArgsAccepts | src/main.cc:101-285 | the range checks accept every in-range call of an int-argument verb, unchanged |
| Commands.ParseRender | src/main.cc:105-106 | `stoi` on every written int gives the ints back |
| Commands.ClassifyRender | src/main.cc:84-311 | every valid call, typed as its name followed by its arguments, is accepted as exactly that call |
| Commands.HandleLineAsWritten | src/main.cc:78-85 | the loop body as written: emptiness is tested on the trimmed line, then `tokens[0]` is read |
| Commands.HandleLine | src/main.cc:78-85 | the loop body tested on the tokens |
| Commands.HandleLineAsWrittenFails | src/main.cc:78-85 | the as-written body reads past the end of `tokens` exactly on all-white-space lines holding a `\v` or `\f`, and otherwise agrees with the corrected body |
| Commands.HandleLineSafe | src/main.cc:78-85 | the corrected body never reads past the tokens, and skips exactly the all-white-space lines |
| Commands.VerticalTabLine | src/main.cc:31 | the line `"\v"` makes the as-written body read `tokens[0]` of an empty vector, while the corrected body skips it |
| Storage.Lines | src/World.cc:28-35 | the lines successive `getline` calls return: none exactly for an empty text, and none holding a newline |
| Storage.LineEnd | src/World.cc:35 | the first line ends at the first '\n' or at the end of the text |
| Storage.LinesJoinLines | src/World.cc:28-35 | `getline` on lines written with `std::endl` gives the lines back |
| Storage.LinesCons | src/World.cc:35 | `getline` returns the first line and continues after its '\n' |
| Storage.SpacedCons | src/World.cc:96-98 | a row written value by value, each followed by a space, starts with the first value's text and a space |
| Storage.SpacedNoNewline | src/World.cc:96-99 | a written row holds no '\n' |
| Storage.RowLines | src/World.cc:95-100 | one written line per row |
| Storage.Serialise | src/World.cc:91-101 | the text `save` writes, ended by the newline of its last line; `Storage.ParseSerialise` reads it back |
| Storage.ParseRow | src/World.cc:36-42 | the values `while (iss >> val)` collects from a line: no more values than characters, each an int32 |
| Storage.Parse | src/World.cc:20-44 | the path constructor builds nothing exactly when the file has fewer than two lines or `std::stoi` fails on the height or width line; the height and width it reads are int32 |
| Storage.ParseKeepsRowsAsRead | src/World.cc:28-44 | the loader reads the height from the first line and the width from the second. It keeps every later line as one row, as many rows and each as long as read, with no check against the declared size |
| Storage.ReadIntSpace | src/World.cc:40 | a leading space only shifts what `iss >> val` consumes |
| Storage.ParseRowSpace | src/World.cc:40 | a leading space does not change the row read |
| Storage.ParseRowShow | src/World.cc:40-42 | a written value followed by a space reads back, and reading goes on after the space |
| Storage.ParseRowText | src/World.cc:40-42 | reading a saved row gives the row back |
| Storage.LinesOfSerialise | src/World.cc:92-100 | the saved text reads back as the height line, the width line and one line per row |
| Storage.ParseRowLines | src/World.cc:35-44 | reading the saved row lines gives the rows back |
| Storage.ParseSerialise | src/World.cc:27-101 | loading what `save` wrote gives back the same height, width and rows |
| Storage.ZeroGrid | src/World.cc:17 | `height` rows, each of `width` zeros |
| Storage.CellCountZeroGrid | src/World.cc:16-18 | the zero grid holds `width * height` cells |
| Storage.WorldSizeCountsCells | src/World.cc:67-69 | `world_size()` of a freshly sized World is the number of cells it holds |
| Storage.World.GetHeight | src/World.cc:59-61 | `get_height()` is the stored height |
| Storage.World.GetWidth | src/World.cc:63-65 | `get_width()` is the stored width |
| Storage.World.WorldSize | src/World.cc:67-69 | `world_size()` is the width times the height, for every World |
| Storage.World.constructor | src/World.cc:16-18 | `World(height, width)` stores the size and a zero grid of that size |
| Storage.World.Make | src/World.cc:16-18 | `World(height, width)` on any ints: no World when a size is negative (`std::length_error`), otherwise the size and a zero grid of that size |
| Storage.World.Open | src/World.cc:20-56 | the path constructor on a file holding `text` builds a World exactly when the loader succeeds, holding exactly the parsed height, width and rows |
| Storage.World.ReadRow | src/World.cc:36-43 | the `while (iss >> val)` loop collects exactly the row the line denotes |
| Storage.World.Save | src/World.cc:91-101 | the text written is the height line, the width line, then one line per row |
| Storage.World.WriteRow | src/World.cc:96-98 | one row is every value followed by a single space |
| Storage.World.Evolve | src/World.cc:71 | the stub `evolve` changes nothing |
| Storage.World.IsStable | src/World.cc:73-76 | this version's `is_stable` always answers false and changes nothing |
| Storage.World.Load | src/World.cc:87-89 | the stub `load` changes nothing |
| CheckSum.XorFold | SIMD/src/CheckSum.cpp:24-32 | the XOR of the buffer's bytes, the reference all three passes are proved equal to; one byte folds to itself |
| CheckSum.XorLanes | SIMD/src/CheckSum.cpp:62 | a lane-wise XOR keeps the width, and each lane is the XOR of the two lanes |
| CheckSum.Zeros | SIMD/src/CheckSum.cpp:59 | a zeroed register of `n` lanes |
| CheckSum.XorFoldAppend | SIMD/src/CheckSum.cpp:29-30 | the XOR of a concatenation is the XOR of the two XORs |
| CheckSum.XorFoldStep | SIMD/src/CheckSum.cpp:60-63 | the XOR of a longer prefix is the XOR of the prefix and the next block |
| CheckSum.XorFoldLanes | SIMD/src/CheckSum.cpp:62-67 | folding a lane-wise XOR is the XOR of the two folds |
| CheckSum.XorFoldZeros | SIMD/src/CheckSum.cpp:77 | a zero accumulator folds to 0 |
| CheckSum.Widened | SIMD/src/CheckSum.cpp:85 | `static_cast<unsigned int>` of a byte is four bytes in memory |
| CheckSum.XorFoldWidened | SIMD/src/CheckSum.cpp:85-91 | the four bytes of a widened byte fold to the byte, in either byte order |
| CheckSum.WordStep | SIMD/src/CheckSum.cpp:79-81 | XORing the next four bytes into the accumulator keeps its fold equal to the XOR of the bytes so far |
| CheckSum.TailStep | SIMD/src/CheckSum.cpp:84-85 | XORing a widened tail byte into the accumulator keeps its fold equal to the XOR of the bytes so far |
| CheckSum.Sum | SIMD/src/CheckSum.cpp:24-32 | `Sum(data, N)` is the XOR of `data[0..N)` from 0, which is 0 for no bytes |
| CheckSum.FoldBytes | SIMD/src/CheckSum.cpp:87-91 | the `temp ^= bytes[j]` loop yields the XOR of all the accumulator's bytes |
| CheckSum.IntPass | SIMD/src/CheckSum.cpp:77-91 | the word loop, the tail loop and the fold give the XOR of the whole buffer, whatever the byte order |
| CheckSum.WordStartsCover | SIMD/src/CheckSum.cpp:78-84 | the word loop copies exactly the `N / 4` whole words, at 0, 4, 8, ..., and stops at `N - N % 4`, where the tail loop starts |
| CheckSum.LoadsInBoundsCons | SIMD/src/CheckSum.cpp:60-61 | a list of loads stays in bounds exactly when its first load and the rest do |
| CheckSum.BlockStartsInBounds | SIMD/src/CheckSum.cpp:60-61 | every 16-byte load of the block loop stays inside the buffer exactly when its length is a multiple of 16 |
| CheckSum.BlockLoadOverreadsAtFour | SIMD/src/CheckSum.cpp:21-61 | a 4-byte buffer satisfies the comment's divisible-by-4 condition, yet the first load reads 16 bytes |
| CheckSum.SimdPass | SIMD/src/CheckSum.cpp:59-67 | the block loop as written, on a length that is a multiple of 16, gives the XOR of the whole buffer |
| CheckSum.SimdPassWithTail | SIMD/src/CheckSum.cpp:59-67 | the block loop with the leftover bytes XORed one at a time gives the XOR of the whole buffer for every length |
| CheckSum.XorFoldFirst | SIMD/src/CheckSum.cpp:64-67 | a register holding one byte and zeros folds to that byte |
| CheckSum.ScalarSection | SIMD/src/CheckSum.cpp:46-49 | after the repetitions, `sumS` is the byte XOR of the buffer, or 0 with no repetition |
| CheckSum.IntSection | SIMD/src/CheckSum.cpp:74-93 | each repetition restarts from a zero accumulator, and the stored value of repetition 0 is the byte XOR |
| CheckSum.SimdSection | SIMD/src/CheckSum.cpp:55-69 | each repetition restarts from a zero register, and the stored value of repetition 0 is the byte XOR, with the block loop as written on lengths that are multiples of 16 and with the corrected pass on every length |
| CheckSum.CheckSums | SIMD/src/CheckSum.cpp:111 | the three results are equal, so the comparison always reports "the same" |
| CheckSum.Benchmark | SIMD/src/CheckSum.cpp:21-115 | the program as written, on its buffer length N = 4000000: every 16-byte load stays in the buffer, and the three results agree |
| MatrixUtils.Resize | NeuralNetworks/code/src/Utils.cpp:48-50 | `vector::resize` keeps the first `n` elements and pads with the fill value |
| MatrixUtils.Transpose | NeuralNetworks/code/src/Utils.cpp:42-58 | the result has `cols` rows of `rows` entries, with `result[j][i] == matrix[i][j]`; it is the transpose |
| MatrixUtils.EqualsTransposed | NeuralNetworks/code/src/Utils.cpp:47-57 | a matrix of the transposed shape holding the transposed entries is the transpose |
| MatrixUtils.TransposeTwice | NeuralNetworks/code/src/Utils.cpp:42-58 | transposing a rectangular matrix with at least one column twice gives it back |
| MatrixUtils.Zeros | NeuralNetworks/code/src/Utils.cpp:180-183 | every element becomes 0 and the length stays |
| MatrixUtils.ZerosMatrix | NeuralNetworks/code/src/Utils.cpp:185-190 | every element of every row becomes 0; the row count and row lengths stay |
| MatrixUtils.Iota | NeuralNetworks/code/src/Utils.cpp:166 | `std::iota` writes 0, 1, ..., n - 1 |
| MatrixUtils.Permuted | NeuralNetworks/code/src/Utils.cpp:174-177 | re-indexing picks one element per index |
| MatrixUtils.PermutationInRange | NeuralNetworks/code/src/Utils.cpp:165-169 | a reordering of 0..n-1 has `n` entries, all below `n` |
| MatrixUtils.PermutedAppend | NeuralNetworks/code/src/Utils.cpp:174-177 | re-indexing distributes over concatenated index lists |
| MatrixUtils.PermutedSplit | NeuralNetworks/code/src/Utils.cpp:174-177 | picking by `u`, `x`, `v` picks `s[x]` plus what picking by `u` and `v` picks |
| MatrixUtils.PermutedMultiset | NeuralNetworks/code/src/Utils.cpp:174-177 | index lists with the same entries pick the same multiset |
| MatrixUtils.Locate | NeuralNetworks/code/src/Utils.cpp:169 | the first entry of a reordering sits somewhere in any other with the same entries |
| MatrixUtils.PermutedIota | NeuralNetworks/code/src/Utils.cpp:166-177 | re-indexing by the unshuffled indices changes nothing |
| MatrixUtils.PermutedKeepsElements | NeuralNetworks/code/src/Utils.cpp:174-177 | re-indexing by a reordering keeps the multiset of elements |
| MatrixUtils.Pairs | NeuralNetworks/code/src/Utils.cpp:174-177 | each feature row paired with its label |
| MatrixUtils.ShuffleKeepsPairs | NeuralNetworks/code/src/Utils.cpp:174-177 | shuffling both with the same indices shuffles the (row, label) pairs, so each row stays with its label and the multiset of pairs is kept |
| MatrixUtils.ShuffleKeepsLabels | NeuralNetworks/code/src/Utils.cpp:164-176 | the labels keep their multiset, and those after the first `n` are untouched |
| MatrixUtils.Shuffle | NeuralNetworks/code/src/Utils.cpp:162-178 | afterwards `features[i] == old[indices[i]]` and `labels[i] == oldLabels[indices[i]]` for `i < n`, and the labels after `n` are unchanged |

## Left out

- Console output, `world.print`, `sleep_for` and the chrono timing of `run` are not modelled: they are I/O and clocks. `Session.Cli.Run` returns nothing where the source returns the elapsed time.
- `random_device`, `mt19937` and the three uniform distributions are not modelled: they are randomness. `Session.Cli.Random` takes the drawn values as an input sequence. `Session.DrawnCellsCount` states what follows when they stay in the ranges the distributions produce.
- The engine's real `evolve` and `is_stable` are not modelled: only their declaration exists (`src/include/World.h`). They are parameters of the abstract World.
- `CLI::save` (src/cli.cc:11-13) calls `world.load` instead of saving. It is not modelled, because what `World::load` does in the engine the CLI drives is not shown.
- `CLI::load` (src/cli.cc:9) replaces the World by one read from a file of the engine. It is not modelled: the engine's loader is only declared. The text format of `src/World.cc` is modelled by `Storage.World.Open`.
- `CLI::set(index, alive)` and `CLI::get(index)` are not modelled: they delegate to `World::set(int)` and `World::get(int)`, which are only declared. The front end still validates their token counts and indices.
- The REPL loop of `main` is not modelled as a loop: `getline` on standard input, the prompts and the printed messages are I/O. One iteration is `Commands.HandleLine` and `Commands.Classify`. The dispatch to the CLI call is the `Command` value returned.
- `Commands.Classify`: a `stoi` failure is one error value (`NotANumber`). The source distinguishes `invalid_argument` and `out_of_range` only by the text of `e.what()`.
- `Session.Cli.Set`, `Session.Cli.Get`, `Session.Cli.Glider`, `Session.Cli.Toad`, `Session.Cli.Beacon`, `Session.Cli.Methuselah`, `Session.Cli.StampPattern`, `Session.Cli.Random`: these require a positive height and width. `get_height`/`get_width` of the engine are positive, and with a zero size the C++ `%` would divide by zero.
- Integer overflow is not modelled. Coordinates, the generation count and `x - 1` in the wrap use unbounded integers in the CLI. The front end's values are proved to be 32-bit, as `std::stoi` makes them, but the wrap arithmetic after that is not checked for overflow.
- `Storage.World.Open`: the file contents are passed in as a string, and opening the stream and the "error opening file" path are not modelled. A missing height or width line leaves the C++ field uninitialised. The model yields no World in that case, as it does when `std::stoi` throws.
- The test `main` of `src/World.cc` and the printing in the path constructor and in `print` are not modelled: they are I/O.
- `CheckSum`: the buffer's random fill, the stopwatches and the printed times are not modelled. The `unsigned int` accumulator is modelled as its four bytes in memory, with the machine's byte order as a parameter. `_mm_xor_ps` is modelled as a bytewise XOR of the sixteen register bytes; the reinterpretation of those bytes as floats does not change them.
- `CheckSum.SimdSection` and `CheckSum.CheckSums` run the as-written loop `CheckSum.SimdPass` only on lengths that are multiples of 16, where its loads stay in the buffer; on other lengths they run the corrected pass `CheckSum.SimdPassWithTail` (see Findings).
- Storage.World.constructor: takes `nat` sizes. `World(int, int)` with a negative size throws `std::length_error`; that path is modelled by `Storage.World.Make`, which yields no World. A size too large for memory (`std::bad_alloc`) is not modelled.
- Storage.World.WorldSize: returns the unbounded product. The C++ `width*height` is an `int` product, which overflows (undefined behaviour) once it passes 2^31 - 1. The loader does not check the header against the rows, so a file with the header lines 65536 and 65536 and no rows already reaches that case.
- Engine.World.IsStable: modelled as a verdict that changes nothing, with no `modifies` clause. `is_stable()` is a non-const member whose body is not shown. The contract of `Session.Cli.Run` (the live cells are the iterated engine step) relies on this assumption; an engine whose check advanced the grid is not covered.
- MatrixUtils.Transpose: the result is a new value, so the aliased call `Transpose(m, m)` is not modelled. There the C++ `resize` calls change the input while it is still being read.
- `MatrixUtils.Shuffle`: the `std::shuffle` output is an input permutation, and the element type of the features is `seq<real>`. `MatrixUtils.Zeros` and `MatrixUtils.ZerosMatrix` write `0.0` into `real` arrays. Float arithmetic is not needed for these, since no element is computed.
- The arithmetic of `Utils.cpp` is not modelled: `MatVecMul`, `MatTransposeVecMul`, vector addition/subtraction/scaling, `AffineTransform`, the outer and Hadamard products. They are floating point. `FillRandomly*` (randomness) and `Print` (I/O) are also left out.
- The other repository programs are not part of this model: the SIMD, OpenMP and OpenCL benchmarks and the data-race exercises are float numerics, intrinsics and concurrency. The stale headers `src/World.h` and `src/cli.h` are not part of it either.

## Findings

| source | as written | input that shows it | evidently intended | confidence | as-written member | corrected member |
|---|---|---|---|---|---|---|
| src/main.cc:31, 80, 84-85 | `trim` strips only " \t\n\r" and the emptiness test looks at the trimmed line. `split` separates on every `isspace` character, so `tokens` can be empty when `tokens[0]` is read | the line "\v" (or "\f", or " \v ") | a line without tokens is skipped like an empty one | not executed | Commands.HandleLineAsWritten (Commands.HandleLineAsWrittenFails, Commands.VerticalTabLine) | Commands.HandleLine (Commands.HandleLineSafe) |
| SIMD/src/CheckSum.cpp:21, 60-61 | the block loop loads 16 bytes at every `i < N` in steps of 16, while the comment on `N` asks only for divisibility by 4 | `N = 4`: the first load reads 16 bytes of a 4-byte buffer | every load stays in the buffer, and the `N % 16` leftover bytes are XORed separately | not executed | CheckSum.SimdPass (CheckSum.BlockStartsInBounds, CheckSum.BlockLoadOverreadsAtFour) | CheckSum.SimdPassWithTail |
