# showmethebit in Dafny

showmethebit is a small console program. It prints the raw bits of a value of one of ten C++ fundamental types. The user picks a type from a numbered menu and types a value. The program then prints the value's storage as groups of eight binary digits, most significant byte first, and asks whether to continue.

This project models the two pieces of `showmethebit.cpp` that carry the logic:

- **The bit-dump encoder** (`PrintChar`, `PrintType`, `IsBigEndian`), in `bit_printer.dfy`, on top of the power-of-two and division facts in `arith.dfy`.
  - A value's storage is an explicit sequence of bytes (`0..255`).
  - The host's byte order (`IsBigEndian()`) is a `bigEndian` flag.
  - The bit test `(c >> i) & 1` is `Bit(c, i) == (c / 2^i) % 2`. Dafny's Euclidean division by a power of two is exactly an arithmetic right shift, so this also covers a negative `char`.
  - `PrintChar` and `PrintType` are methods with the source's loops. Each is proved equal to a specification function: `Group` for one byte and `PrintTypeText` for a whole value. The properties are then proved about those functions.
- **The menu and the `while (true)` loop of `main`**, in `menu.dfy`.
  - The ten-entry name table and handler table are constants.
  - The banner is printed by a loop (`ShowMenu`).
  - Each read in the loop is one `Step` of a transition function over the states "awaiting a selection", "awaiting handler h's value", "awaiting the continue answer" and "terminated". A pass of the source's loop that runs a handler is three steps: the selection, the value and the answer.
  - `Exec` runs `Step` over a sequence of already-read tokens. `Loop` and `Session` are the imperative loops, proved equal to `Exec`.

Standard output is one string, and each `println` appends `"\n"`. Console input is a sequence of tokens:

- `Unparsed`: the selection was not a decimal integer;
- `Number(n)`: the selection was the decimal integer `n`, of any size. Assuming a 32-bit `int` for `opt`, a numeral outside -2^31..2^31−1 makes `cin >> opt` fail and is handled like `Unparsed`;
- `Value(storage)`: the value a handler read, as its storage bytes;
- `Letter(c)`: the answer to the continue prompt.

Each prompt reads only its own kind of token. A run stops when the program quits, when the tokens run out, or at the first token the current prompt cannot read.

Two facts about the output that are easy to miss:

- PrintChar writes a space after every byte, the last one included, so the bit line of an n-byte value holds n spaces (showmethebit.cpp:18).
- Dispatch (showmethebit.cpp:91) prints nothing before the handler's value prompt.

## Model

| member | source | states |
|---|---|---|
| Arith.Bit | showmethebit.cpp:16 | `(c >> i) & 1` is `(c / 2^i) mod 2` with floor division, so it is 0 or 1 for every integer c, negative ones included |
| BitPrinter.Digit | showmethebit.cpp:16 | The digit printed for a bit test is '0' or '1', and it is '1' exactly when the test is non-zero |
| BitPrinter.PrintChar | showmethebit.cpp:12-19 | For a char holding -128..255, the loop from bit 7 down to bit 0 writes `Group(c mod 256)`: the eight digits of the raw byte, then one space |
| BitPrinter.CharBits | showmethebit.cpp:14-16 | For bits 0..7, `(c >> i) & 1` on a char promoted to int equals the same bit of the raw byte `c mod 256`, whether char is signed (arithmetic shift of a negative value) or unsigned |
| BitPrinter.SignedChar | showmethebit.cpp:29 | A byte read through a signed `const char*` is a value in -128..127 congruent to the byte mod 256 |
| BitPrinter.PrintType | showmethebit.cpp:21-40 | Writes the header line, then the bytes through PrintChar in memory order when big-endian and in reverse memory order when little-endian, then a newline; the result is `PrintTypeText(mem, bigEndian)` |
| BitPrinter.BitLineLayout | showmethebit.cpp:14-16 | The bit line has 9n characters. Group j is byte j (big-endian) or byte n−1−j (little-endian). Character k < 8 of a group is bit 7−k of that byte, and the ninth is a space |
| BitPrinter.PrintTypeCounts | showmethebit.cpp:12-19 | For n bytes the bit line holds exactly n spaces and 8n characters from {'0','1'}, 9n in all. The text starts with the header line and ends with a newline |
| BitPrinter.HostOrderMirrored | showmethebit.cpp:25-38 | The little-endian output for storage b equals the big-endian output for reverse(b), and the other way round |
| BitPrinter.ByteDigitsAreNumeral | showmethebit.cpp:14-16 | The eight digits of a byte are its 8-digit base-2 numeral |
| BitPrinter.ReadNumeral | showmethebit.cpp:14-16 | Reading the w-digit numeral of a value below 2^w as binary gives the value back |
| BitPrinter.NumeralSplit | showmethebit.cpp:14-16 | The (a+b)-digit numeral of v is the a-digit numeral of v / 2^b followed by the b-digit numeral of v |
| BitPrinter.ByteNumeral | showmethebit.cpp:14-16 | The 8-digit numeral depends only on v mod 256 |
| BitPrinter.MostSignificantFirst | showmethebit.cpp:34-37 | Printing the little-endian bytes of v from last to first gives, spaces removed, the 8n-digit numeral of v |
| BitPrinter.UnsignedDump | showmethebit.cpp:25-38 | On either host, the digits printed for an n-byte unsigned v < 2^(8n) stored in host byte order, spaces removed, are the 8n-digit numeral of v, most significant bit first, and read back as v |
| BitPrinter.TwosComplementDump | showmethebit.cpp:25-38 | For a signed n-byte v stored as v mod 2^(8n): 8n digits are printed, the first is '1' exactly when v < 0, and they read back as v, or as v + 2^(8n) when v < 0 |
| BitPrinter.IntFiveLittleEndian | showmethebit.cpp:34-37 | An int holding 5 on a little-endian host is stored as 5,0,0,0 and prints as `00000000 00000000 00000000 00000101 ` |
| BitPrinter.ParseGroupsOfGroups | showmethebit.cpp:12-19 | Reading back each nine-character group's first eight digits as a byte recovers the printed bytes in order |
| BitPrinter.RoundTrip | showmethebit.cpp:21-40 | Decoding a bit line recovers the original storage bytes exactly. Decoding splits the line into groups, reads each group's digits as a byte, and reverses the group order on a little-endian host |
| Menu.TypeNames | showmethebit.cpp:64 | The ten names the menu lists, in order |
| Menu.Handlers | showmethebit.cpp:65 | The ten types the handler table is instantiated with, in the same order |
| Menu.TablesAgree | showmethebit.cpp:64-65 | The name table and the handler table both have 10 entries and agree index for index |
| Menu.Decimal | showmethebit.cpp:69 | The `{}` rendering of an option number is a non-empty string of decimal digits with no leading zero |
| Menu.ReadDecimalOfDecimal | showmethebit.cpp:69 | The decimal numeral printed for an option number reads back as that number |
| Menu.ShowMenu | showmethebit.cpp:66-71 | The banner loop writes the title line, one line per table entry in order, then a blank line (`BannerText()`) |
| Menu.EntriesPrefix | showmethebit.cpp:67-70 | The menu lines for options 1..i come first in the lines for 1..j |
| Menu.BannerEntry | showmethebit.cpp:64-70 | For i = 1..10 the banner contains, right after the title and the lines for 1..i−1, the line "(i) name". Here i reads back as i, and name is the spelling of the type handler i−1 prints |
| Menu.Step | showmethebit.cpp:79-101 | One read of the loop and its answer. Only the handler step leads to the continue prompt. A chosen handler is always an entry of the 10-entry table, so `func_table[opt - 1]` is in bounds. Quitting prints nothing |
| Menu.Exec | showmethebit.cpp:73-103 | A run never reads more tokens than it is given |
| Menu.Respond | showmethebit.cpp:75-102 | One read in the loop (:76, :47 or :94) and what is printed before the next read: exactly what `Step` says, moving to `Step`'s next state |
| Menu.Loop | showmethebit.cpp:73-103 | The `while (true)` loop over the tokens ends in the state, with the output and the number of tokens read that `Exec` gives from the selection prompt |
| Menu.Session | showmethebit.cpp:62-104 | The whole program prints the banner followed by the loop's output |
| Menu.SelectionOutcomes | showmethebit.cpp:75-91 | Four cases, each an if-and-only-if. A failed parse, including a numeral outside int's range, reports "Invalid input" and stays. -1 quits silently and never reports "Invalid value". Any other integer outside 1..10 reports "Invalid value" and stays. An option in 1..10 prompts for a value and runs handler opt−1, whose type is the one listed as option opt |
| Menu.HandlerOutput | showmethebit.cpp:52-57 | After the value is read, the handler prints the header, the bit line and a blank line (:55-56), then `main` prints the continue prompt (:92) and awaits the answer. The value prompt (:45) belongs to the selection step |
| Menu.ChoiceOutcomes | showmethebit.cpp:92-101 | Each an if-and-only-if: the answer ends the loop, silently, exactly when it is 'n'; otherwise it returns to the selection prompt; "Choose a type:" is printed exactly for 'y', and "Invalid choice, continue to choose a type:" exactly for any character other than 'n' and 'y' |
| Menu.QuitTokens | showmethebit.cpp:85-86 | A step ends the loop exactly when the token is -1 or 'n' |
| Menu.RunStops | showmethebit.cpp:73-103 | A run stops only on termination, at the end of the tokens, or at a token the prompt cannot read. A run that terminates last read -1 or 'n' |
| Menu.ExecFrom | showmethebit.cpp:73-103 | Running from token k is one step and then running from token k+1 |
| Menu.GarbageThenQuit | showmethebit.cpp:79-86 | A non-integer then -1 prints one "Invalid input" line and quits after two tokens |
| Menu.PickPrintQuit | showmethebit.cpp:87-97 | Option opt in range, a value and 'n' print the value prompt, the value's bits and the continue prompt, and quit after exactly three tokens |
| Menu.IntFiveSession | showmethebit.cpp:87-97 | Options 1, 5, 'n' on a little-endian host choose int, print the four bytes of 5 most significant first, and quit |

## Left out

- Console I/O mechanics are not modelled: `std::cin` extraction, `cin.clear`, `cin.ignore` of the rest of the line, and `std::print`. Input is a sequence of already-read tokens and output is one string.
- Parsing of the typed value in `TakeValue` (showmethebit.cpp:43-50) is not modelled, including float and double text and their IEEE-754 layout. A handler receives the value's storage bytes as given.
- Menu.Step: the size of the storage a handler receives is not tied to its type. Type sizes are implementation-defined, for example `long` is 4 or 8 bytes. The width of `int opt` is likewise taken to be 32 bits (`Menu.FitsInt`).
- A failed value parse leaves `std::cin` in its fail state, and the later `cin >> choice` then reads nothing. End of input behaves the same way: the selection loop repeats "Invalid input" forever, and `choice` is read uninitialised. Neither is modelled. A run over the tokens simply stops when they run out.
- `reinterpret_cast` aliasing (showmethebit.cpp:29, 36) is replaced by an explicit byte-sequence parameter.
- The `func_array` template machinery (showmethebit.cpp:59-60, 65) is the constant sequence `Handlers` of type tags.
- `IsBigEndian` (showmethebit.cpp:7-10) is the compile-time host byte order. It is the `bigEndian` parameter, not a function of a platform.
- Menu.Exec: running over two token sequences one after the other is not stated as a lemma. The model proves only the one-token unfolding (ExecFrom) the loop needs.
