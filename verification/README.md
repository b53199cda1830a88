# Python-Projects in Dafny

This project models the core of the Python-Projects repository as pure Dafny functions over immutable datatypes, and proves properties about that model. The core has four parts:

- **The basic search engine**, in both of its variants:
  - the tokenizer (`re.findall(r'\b\w+\b', text.lower())`);
  - the inverted index of `WordInfo(file, count)` postings built by `index_files`;
  - the ranked lookup done by `search`;
  - the GUI variant's `indexed_files` guard and `get_file_content`;
  - the CLI variant's missing guard, which posts a file again on every re-index.
- **The memory game**:
  - `Cell`;
  - the size rule and the deal of value pairs;
  - the console game's coordinate reading, reveal/match step and round loop;
  - the window game's click/match state machine;
  - the hex colour codec of the window game.
- **The game-management records**:
  - validated setters;
  - the Armenian phone-number pattern;
  - genre dispatch in `create_game`;
  - the first-match `update_game`;
  - `publish_game`;
  - platforms;
  - the class-level id counters.
- **The hospital records**:
  - validated people;
  - id counters that advance before the phone number is checked;
  - medical history and appointments;
  - id-keyed registries.

## Conventions

A Python call that either returns or raises becomes an `Outcome<T>`, which is `Ok(value)` or `Err(exception class)`.

Arguments that the source checks at run time are modelled explicitly:

- `Value` stands for an argument whose type is checked with `isinstance`. `bool` counts as `int`, as in Python.
- `Arg<T>` stands for an argument that may not be an instance of the expected class.

The file system is a parameter, `Files.FileSystem`. It holds directory listings and per-path contents, where `None` means the read raises.

Typed console input is a sequence of lines. Reading past the last line raises `EOFError`.

Python objects shared by reference are kept once:

- games live in a catalog keyed by `id_game`;
- developers, publishers and platforms hold ids.

Modules, one per file:

- `Wrappers`, `Python`: support.
- `Text`, `Numerals`, `Tokenizer`, `Postings`, `Files`, `InvertedIndex`, `GuiSearchEngine`, `CliSearchEngine`, `SearchScenario`: the search engine and the text and number helpers it uses.
- `Cells`, `MemoryBoard`, `MemoryGame`, `MemoryGui`, `HexColor`: the memory game.
- `Phone`, `GameManagement`, `Hospital`: the records.

## Model

| member | source | states |
|---|---|---|
| Tokenizer.Tokenize | Basic-Search-Engine/GUI-version/search_engine.py:66 | every token is a non-empty run of word characters that lower() leaves unchanged |
| Tokenizer.TokenizeJoinRoundTrip | Basic-Search-Engine/GUI-version/search_engine.py:92 | words joined by spaces tokenize back to exactly those words |
| Tokenizer.TokenizeTypedWords | Basic-Search-Engine/CLI-version/search_engine.py:49 | a text whose lower-case form is terms joined by spaces tokenizes to those terms, whatever its letter case |
| Postings.Less | Basic-Search-Engine/CLI-version/search_engine.py:9-12 | WordInfo.__lt__ compares counts only, and raises TypeError exactly when the other operand is not a WordInfo |
| Postings.SortByCount | Basic-Search-Engine/GUI-version/search_engine.py:99-100 | the ranking is a permutation of the postings, in non-increasing count order, with equal-count postings kept in input order |
| Postings.InsertByCountStable | Basic-Search-Engine/GUI-version/search_engine.py:100 | one insertion keeps the postings of every count in their original relative order |
| Postings.RankingHasNoInversion | Basic-Search-Engine/GUI-version/search_engine.py:13-16 | under __lt__, no ranked posting is smaller than one ranked after it |
| Postings.StableRankingUnique | Basic-Search-Engine/GUI-version/search_engine.py:100 | any stable, non-increasing arrangement of the postings equals the ranking: the sort is fully determined |
| Postings.RankingIsDetermined | Basic-Search-Engine/CLI-version/search_engine.py:82 | two non-increasing sequences with the same postings at every count are equal |
| Text.Strip | Game-Development-System/game_managment_system.py:31-33 | str.strip() keeps the infix between an all-whitespace prefix and suffix; the result is empty iff the input is all whitespace, and otherwise neither starts nor ends with whitespace |
| Text.StripIdempotent | Game-Development-System/game_managment_system.py:33 | stripping twice is stripping once |
| Text.Occurrences | Basic-Search-Engine/GUI-version/search_engine.py:70 | list.count is the multiplicity of the element, and is positive iff the element occurs |
| Text.SplitJoinRoundTrip | Game-Development-System/Memory-Game/memory_game.py:36 | " ".join(ws).split() == ws for non-empty pieces without whitespace |
| Text.RunsSplit | Basic-Search-Engine/GUI-version/search_engine.py:66 | a character outside the class cuts the runs in two: no run spans it |
| Files.TxtPathsMembers | Basic-Search-Engine/GUI-version/search_engine.py:61 | the candidate paths are exactly os.path.join(folder, name) for the listed names ending in ".txt" |
| Files.TxtPathsDistinct | Basic-Search-Engine/GUI-version/search_engine.py:61 | a listing without repeats yields each candidate path once |
| Files.JoinInjective | Basic-Search-Engine/CLI-version/search_engine.py:46 | names without a separator join to distinct paths |
| Files.Read | Basic-Search-Engine/GUI-version/search_engine.py:65-66 | open().read() returns the text iff the file exists and decodes; otherwise FileNotFoundError for a missing file and OSError for an unreadable one |
| InvertedIndex.AddDocument | Basic-Search-Engine/GUI-version/search_engine.py:65-72 | each distinct token gains exactly one posting for the file, carrying its occurrence count, after the postings it had; every other term is unchanged |
| InvertedIndex.IndexDocument | Basic-Search-Engine/GUI-version/search_engine.py:65-72 | the loop over set(content), in any iteration order, builds exactly the index AddDocument describes |
| InvertedIndex.CountOccurrences | Basic-Search-Engine/CLI-version/search_engine.py:53-55 | content.count(word) as a scan equals the word's multiplicity among the tokens |
| InvertedIndex.Search | Basic-Search-Engine/GUI-version/search_engine.py:92-101 | the result holds exactly the query tokens present in the index, each mapped to a stable non-increasing permutation of its postings |
| InvertedIndex.CollectPostings | Basic-Search-Engine/GUI-version/search_engine.py:93-98 | the first pass keeps exactly the query words found in the index, each with its postings as they are |
| InvertedIndex.RankAll | Basic-Search-Engine/GUI-version/search_engine.py:99-100 | the second pass keeps the set of terms and replaces each list by its ranking |
| InvertedIndex.SearchInTwoPasses | Basic-Search-Engine/CLI-version/search_engine.py:74-83 | the two loops of search() compute exactly the ranked result Search specifies |
| InvertedIndex.QueryFindsDocument | Basic-Search-Engine/GUI-version/search_engine.py:66-92 | a query equal to a document's text, in any letter case, finds each of its terms with the document's posting and exact count |
| GuiSearchEngine.IndexFiles | Basic-Search-Engine/GUI-version/search_engine.py:58-60 | a path that is not a directory leaves the engine untouched and is reported as such |
| GuiSearchEngine.PostingsAfterAdd | Basic-Search-Engine/GUI-version/search_engine.py:68-73 | after a file is added, its own terms have one more posting and every other term's postings are unchanged |
| GuiSearchEngine.AddFileKeepsPostingsDistinct | Basic-Search-Engine/GUI-version/search_engine.py:62-73 | adding an unindexed file keeps every posting naming an indexed file and at most one posting per (term, file) |
| GuiSearchEngine.AddFileKeepsCounts | Basic-Search-Engine/GUI-version/search_engine.py:65-73 | after adding a file, every indexed file has WordInfo(f, n) for term t iff t is one of f's tokens and n is its count |
| GuiSearchEngine.AddFileKeepsConsistent | Basic-Search-Engine/GUI-version/search_engine.py:65-73 | adding an unindexed, readable file preserves the engine invariant |
| GuiSearchEngine.IndexPathsKeepsConsistent | Basic-Search-Engine/GUI-version/search_engine.py:62-73 | a batch preserves the invariant, whether it completes or stops at a failed read |
| GuiSearchEngine.IndexFilesKeepsConsistent | Basic-Search-Engine/GUI-version/search_engine.py:57-79 | index_files preserves the invariant: one posting per (term, file), each with its exact count |
| GuiSearchEngine.IndexPathsGrows | Basic-Search-Engine/GUI-version/search_engine.py:62-73 | a batch only adds files, and only files of the batch |
| GuiSearchEngine.IndexPathsIdempotent | Basic-Search-Engine/GUI-version/search_engine.py:63-64 | running a batch again on its own result changes nothing and ends the same way |
| GuiSearchEngine.IndexFilesIdempotent | Basic-Search-Engine/GUI-version/search_engine.py:62-64 | a second index_files on the same folder leaves index and indexed_files as the first left them, with the same report |
| GuiSearchEngine.IndexPathsCompletes | Basic-Search-Engine/GUI-version/search_engine.py:62-73 | a batch that runs through marks every candidate path indexed, and nothing else |
| GuiSearchEngine.IndexPathsStopsAtFailure | Basic-Search-Engine/GUI-version/search_engine.py:57-79 | a read that raises ends the batch: files before it stay indexed, and neither it nor any later file is indexed |
| GuiSearchEngine.GetFileContent | Basic-Search-Engine/GUI-version/search_engine.py:181-193 | ValueError for an empty path; FileNotFoundError for a path never indexed, even if it exists, and for an indexed file that has since vanished; Exception for any other failed read; otherwise the text |
| GuiSearchEngine.IndexedFileIsServed | Basic-Search-Engine/GUI-version/search_engine.py:184-191 | in a consistent engine, every indexed file is served with its contents |
| GuiSearchEngine.SetIndex | Basic-Search-Engine/GUI-version/search_engine.py:36-40 | a dict replaces the index and keeps indexed_files; anything else raises TypeError |
| GuiSearchEngine.QueryFindsIndexedFile | Basic-Search-Engine/GUI-version/search_engine.py:66-92 | for an indexed file, a query made of its text in any case finds each of its terms with the file's posting and exact count |
| CliSearchEngine.IndexFiles | Basic-Search-Engine/CLI-version/search_engine.py:43-45 | a path that is not a directory leaves the index untouched |
| CliSearchEngine.IndexPathsAppends | Basic-Search-Engine/CLI-version/search_engine.py:47-55 | a completed batch lengthens each term's postings by one per file holding it, whatever the index already held |
| CliSearchEngine.IndexFilesAppendsEveryTime | Basic-Search-Engine/CLI-version/search_engine.py:46-55 | without the guard, every clean index_files call grows each term's list by one entry per containing file |
| CliSearchEngine.IndexPathsFailureIgnoresIndex | Basic-Search-Engine/CLI-version/search_engine.py:47-49 | whether and where a batch fails depends only on the files, not on the index |
| CliSearchEngine.SetIndex | Basic-Search-Engine/CLI-version/search_engine.py:28-32 | a dict replaces the index; anything else raises TypeError |
| CliSearchEngine.GuiAgreesWhileNothingIsSkipped | Basic-Search-Engine/CLI-version/search_engine.py:47-55 | on distinct, not-yet-indexed paths both variants build the same index and stop at the same failure |
| CliSearchEngine.ReindexingDiffers | Basic-Search-Engine/GUI-version/search_engine.py:62-64 | from fresh, both variants build the same index; re-indexing leaves the GUI engine unchanged but doubles every CLI postings list |
| SearchScenario.RankingScenario | Basic-Search-Engine/GUI-version/search_engine.py:61-101 | on a folder with a.txt, notes.md and b.txt, only the .txt files are indexed, and "cat DOG" ranks b.txt (3) before a.txt (1) for "cat" and finds a.txt (2) for "dog" |
| SearchScenario.UnindexedFileIsRefused | Basic-Search-Engine/GUI-version/search_engine.py:184-185 | an existing file that was never indexed is refused with FileNotFoundError |
| Cells.NewCell | Game-Development-System/Memory-Game/cell.py:4-6 | a new card carries its value and starts face down |
| Cells.SetFounded | Game-Development-System/Memory-Game/cell.py:20-24 | only a bool is accepted; anything else raises TypeError and leaves the card as it was |
| Cells.Equals | Game-Development-System/Memory-Game/cell.py:26-29 | cards are equal iff their values are; comparing with a non-Cell raises TypeError |
| Cells.EqualsIsEquivalence | Game-Development-System/Memory-Game/cell.py:26-29 | card equality is reflexive, symmetric and transitive, and ignores whether a card is face up |
| Cells.Str | Game-Development-System/Memory-Game/cell.py:31-35 | str(cell) is the value in decimal and reads back with int() as the value |
| Cells.StrMatchesEquals | Game-Development-System/Memory-Game/cell.py:26-35 | two cards print alike iff they are equal |
| Numerals.DecimalRoundTrip | Game-Development-System/Memory-Game/cell.py:32 | int(str(n)) == n for every integer n |
| Numerals.ParseInt | Game-Development-System/Memory-Game/memory_game.py:17 | int() raises only ValueError, and refuses any text holding an information separator U+001C..U+001F |
| Numerals.SeparatorIsNotStripped | Game-Development-System/Memory-Game/memory_game.py:17 | int() strips a space and a newline around a digit but refuses a leading U+001C |
| MemoryBoard.AcceptSize | Game-Development-System/Memory-Game/memory_game.py:18-20 | a size is accepted iff it is even and at least 2, and then win_case is size²/2 |
| MemoryBoard.Run | Game-Development-System/Memory-Game/memory_game.py:28 | Cell(1) … Cell(n), face down, in order |
| MemoryBoard.RunCounts | Game-Development-System/Memory-Game/memory_game.py:28-29 | each value 1..n appears once among the face-down cards of one run, and nothing else appears |
| MemoryBoard.DeckCounts | Game-Development-System/Memory-Game/memory_game.py:28-29 | the deck holds each value 1..n exactly twice, face down, and nothing else |
| MemoryBoard.DealContents | Game-Development-System/Memory-Game/memory_game.py:28-31 | a shuffled deal has 2n face-down cards, each value 1..n exactly twice, and none face up |
| MemoryBoard.AllFounded | Game-Development-System/Memory-Game/memory_game.py:47-49 | the face-up count equals the number of cards iff every card is face up |
| MemoryBoard.NoneFounded | Game-Development-System/Memory-Game/memory_game.py:31 | the face-up count is zero iff no card is face up |
| MemoryBoard.FoundedCountUpdate | Game-Development-System/Memory-Game/memory_game.py:71 | replacing one card changes the face-up count only by that card's flag |
| MemoryBoard.DealIsInitial | Game-Development-System/Memory-Game/memory_game.py:26-31 | a fresh deal of an accepted size satisfies the bookkeeping with win_case at its start value |
| MemoryBoard.WinMeansAllFounded | Game-Development-System/Memory-Game/memory_game.py:47-49 | under the bookkeeping, win_case == 0 iff every card is face up |
| MemoryBoard.PosInjective | Game-Development-System/Memory-Game/memory_game.py:31 | two grid cells share a row-major position iff they are the same cell |
| MemoryGame.InputSize | Game-Development-System/Memory-Game/memory_game.py:13-24 | the chosen size passes the size rule with its win_case; the unread lines are a proper suffix of the input; running out of input raises EOFError |
| MemoryGame.InputSizeReadsChosenLine | Game-Development-System/Memory-Game/memory_game.py:15-24 | the chosen size is the value of the accepted line, and every earlier line was not an integer or was refused by the rule |
| MemoryGame.AxisIndex | Game-Development-System/Memory-Game/memory_game.py:40 | a numpy axis index is valid iff it lies in -size..size-1; negative ones count from the end |
| MemoryGame.Probe | Game-Development-System/Memory-Game/memory_game.py:40-42 | board[x][y] raises IndexError exactly outside -size..size-1; inside it, a negative coordinate asks again, a face-up card asks again, and a face-down card at non-negative coordinates is accepted |
| MemoryGame.Judge | Game-Development-System/Memory-Game/memory_game.py:36-45 | as intended, a line is accepted only for a face-down card inside the grid, and no line raises |
| MemoryGame.CheckCords | Game-Development-System/Memory-Game/memory_game.py:33-45 | as intended, only non-negative coordinates of a face-down card inside the grid are returned; otherwise the next line is read, and EOFError ends the input |
| MemoryGame.ReadCords | Game-Development-System/Memory-Game/memory_game.py:36-39 | the line "x y" reads back as the coordinates x and y |
| MemoryGame.CheckCordsAcceptsValid | Game-Development-System/Memory-Game/memory_game.py:33-42 | typing the coordinates of a face-down card inside the grid picks that card on the first line |
| MemoryGame.OutOfGridEscapes | Game-Development-System/Memory-Game/memory_game.py:40-44 | as written, a row one past the grid makes IndexError escape |
| MemoryGame.OutOfGridAsksAgain | Game-Development-System/Memory-Game/memory_game.py:36-45 | as intended, the same row is refused and the next line is read |
| MemoryGame.NewGame | Game-Development-System/Memory-Game/memory_game.py:26-31 | the board after __input_size and __init_board satisfies the bookkeeping, with every card face down and win_case at its start value |
| MemoryGame.FlipUp | Game-Development-System/Memory-Game/memory_game.py:71 | turning a face-down card up adds one to the face-up count and keeps the deal |
| MemoryGame.FlipLeavesOthers | Game-Development-System/Memory-Game/memory_game.py:70-74 | a card still face down after the first pick was turned up is another card, and it was face down before |
| MemoryGame.Reveal | Game-Development-System/Memory-Game/memory_game.py:51-62 | a match iff the values are equal; on a match both cards stay up and win_case drops by one; otherwise the board is exactly as before the round; the bookkeeping holds either way |
| MemoryGame.PlayRound | Game-Development-System/Memory-Game/memory_game.py:68-76 | as intended (picks read by the corrected CheckCords): a round reads at least two lines and keeps the bookkeeping; a match lowers win_case by one; a mismatch leaves the game unchanged; running out of input raises EOFError |
| MemoryGame.Play | Game-Development-System/Memory-Game/memory_game.py:64-78 | as intended (picks read by the corrected CheckCords): the loop ends only with win_case 0 and every card face up; running out of input raises EOFError, the only error left once out-of-grid picks are asked again |
| MemoryGui.ChooseSize | Game-Development-System/Memory-Game/memory_game_GUI.py:92-104 | the entry text goes through int(); an even number at least 2 replaces the current size with win_case size²/2, while text int() refuses (the ValueError branch) or a refused size changes nothing |
| MemoryGui.ChooseSizeRefusesWords | Game-Development-System/Memory-Game/memory_game_GUI.py:93-104 | text int() refuses, such as "six", leaves size and win_case alone |
| MemoryGui.ChooseSizeRefusesOdd | Game-Development-System/Memory-Game/memory_game_GUI.py:95-102 | an odd size such as 5 leaves size and win_case alone |
| MemoryGui.ChooseSizeStripsSpaces | Game-Development-System/Memory-Game/memory_game_GUI.py:93-98 | " 6 " is read as 6 and gives win_case 18 |
| MemoryGui.NewGui | Game-Development-System/Memory-Game/memory_game_GUI.py:111-116 | the dealt window satisfies the invariant, with no selection and no moves |
| MemoryGui.Click | Game-Development-System/Memory-Game/memory_game_GUI.py:155-169 | a click on a face-up card, on the first selection, or with both selections held changes nothing; otherwise it fills the first free selection; the board, win_case and moves never change |
| MemoryGui.ClickKeepsInv | Game-Development-System/Memory-Game/memory_game_GUI.py:155-169 | clicks keep the selections distinct face-down cards inside the grid |
| MemoryGui.CheckMatch | Game-Development-System/Memory-Game/memory_game_GUI.py:185-205 | equal cards are marked face up and win_case drops by one, otherwise the board is unchanged; one move is counted and both selections are cleared; the invariant holds |
| MemoryGui.CheckWinMeansAllFounded | Game-Development-System/Memory-Game/memory_game_GUI.py:207-209 | the window reports a win iff every card is face up |
| HexColor.HexToRgb | Game-Development-System/Memory-Game/memory_game_GUI.py:40-43 | the only exception hex_to_rgb can raise is ValueError, from a slice that is not hex |
| HexColor.StripHashes | Game-Development-System/Memory-Game/memory_game_GUI.py:42 | lstrip('#') removes a prefix made only of '#', leaving a string that does not start with '#' |
| HexColor.RgbToHex | Game-Development-System/Memory-Game/memory_game_GUI.py:45-47 | the result starts with '#' and has at least seven characters |
| HexColor.Hex02OfByte | Game-Development-System/Memory-Game/memory_game_GUI.py:47 | a component in 0..255 is written as exactly two lower-case hex digits |
| HexColor.ParseHex02 | Game-Development-System/Memory-Game/memory_game_GUI.py:43-47 | int(format(n, '02x'), 16) == n for n in 0..255 |
| HexColor.ColorRoundTrip | Game-Development-System/Memory-Game/memory_game_GUI.py:40-47 | hex_to_rgb(rgb_to_hex(c)) == c for every colour with components in 0..255 |
| HexColor.ReadHexColor | Game-Development-System/Memory-Game/memory_game_GUI.py:40-43 | six hex digits behind any number of '#' read as the three two-digit values |
| HexColor.WriteHexColor | Game-Development-System/Memory-Game/memory_game_GUI.py:45-47 | the colour read from six hex digits is written back as '#' and the same digits in lower case |
| HexColor.HexRoundTrip | Game-Development-System/Memory-Game/memory_game_GUI.py:40-47 | rgb_to_hex(hex_to_rgb(s)) is '#' followed by s's six digits in lower case |
| Phone.ValidIffMatches | Game-Development-System/game_managment_system.py:163-165 | the left-to-right check accepts exactly the strings the pattern describes: prefix "+374", "374" or "0", a listed operator code, six digits, then the end or a final newline |
| Phone.PrefixDetermined | Hospital-Management-System/hospital.py:62 | a string starting with one of the prefixes is read with that prefix |
| Phone.AcceptedSamples | Game-Development-System/game_managment_system_testing.py:3-7 | the sample developer number "+37499123456" passes, as do its national form "099123456" and the form with a final newline |
| Phone.RefusedSamples | Game-Development-System/game_managment_system_testing.py:49 | "+37412345" and a number with an unlisted operator code are refused |
| GameManagement.ValidateName | Game-Development-System/game_managment_system.py:27-33 | accepted iff a str with a non-whitespace character; a non-str raises TypeError, a blank str ValueError; the stored value is the stripped, non-empty string |
| GameManagement.NameResetIsIdentity | Game-Development-System/game_managment_system.py:143-149 | storing an already-stored name again stores the same name |
| GameManagement.ValidatePrice | Game-Development-System/game_managment_system.py:61-67 | a non-number raises TypeError, a negative one ValueError; otherwise float(price) is stored and is non-negative |
| GameManagement.ValidateId | Game-Development-System/game_managment_system.py:73-103 | an id is accepted iff it is an int (bool included) and non-negative; TypeError and ValueError otherwise |
| GameManagement.ValidateContact | Game-Development-System/game_managment_system.py:155-165 | contact info is accepted iff it is a str matching the phone pattern, and is stored unchanged |
| GameManagement.NewGame | Game-Development-System/game_managment_system.py:13-21 | a game is built iff title, genre and price validate, and the first failure decides the error; it stores the stripped title and genre and float(price), takes the counter as id_game, publisher id 0 and the release date 2012-01-01 |
| GameManagement.CreateGame | Game-Development-System/game_managment_system.py:181-187 | succeeds iff the genre casefolds to "strategy" or "action" and title, genre and price validate; a non-str genre raises AttributeError, any other genre ValueError, and otherwise the first failing setter decides the error; on success exactly one game, of the class the genre picks, with the stripped title and genre and the price, is added under the next id, the counter advances and the developer's list gains that id |
| GameManagement.CreateGameFresh | Game-Development-System/game_managment_system.py:20-21 | a created game's id is new: the catalog grows by one and keeps every game it had |
| GameManagement.CreateGameKeepsInv | Game-Development-System/game_managment_system.py:181-187 | create_game keeps every catalog id below the counter and every developer's games in the catalog |
| GameManagement.SampleCreateGameErrors | Game-Development-System/game_managment_system_testing.py:38-61 | the sample's "puzzle" genre, empty title and empty genre each raise ValueError |
| GameManagement.FirstWithTitle | Game-Development-System/game_managment_system.py:190-193 | finds the first game whose title is exactly the given one; none before it matches |
| GameManagement.UpdateGame | Game-Development-System/game_managment_system.py:189-195 | only the first game with the exact title gets the new date, and nothing changes when there is none; a non-date raises TypeError |
| GameManagement.UpdateGameOnlyFirst | Game-Development-System/game_managment_system.py:190-193 | a later game with the same title keeps its release date |
| GameManagement.PublishGame | Game-Development-System/game_managment_system.py:218-223 | a non-Game raises TypeError; otherwise the game's id_publisher becomes the publisher's id and the game is appended |
| GameManagement.NewDeveloper | Game-Development-System/game_managment_system.py:175-179 | a developer is created iff name and contact validate; it stores the stripped name and the contact as given, takes the counter as id, which then advances, and starts with no games |
| GameManagement.NewPublisher | Game-Development-System/game_managment_system.py:212-216 | a publisher is created iff name and contact validate; it stores the stripped name and the contact as given, takes its own counter as id, which then advances, and starts with no games |
| GameManagement.SetContact | Game-Development-System/game_managment_system.py:155-161 | reassignment succeeds iff the number validates; otherwise the old one is kept |
| GameManagement.ShortContactRefused | Game-Development-System/game_managment_system_testing.py:49 | assigning "+37412345" raises ValueError |
| GameManagement.NewPlatform | Game-Development-System/game_managment_system.py:234-250 | a platform is created iff its name validates; it stores the stripped name, with empty lists |
| GameManagement.AddGame | Game-Development-System/game_managment_system.py:264-267 | a non-Game raises TypeError; otherwise it is appended and nothing else changes |
| GameManagement.AddDeveloper | Game-Development-System/game_managment_system.py:252-255 | a non-Developer raises TypeError; otherwise it is appended and nothing else changes |
| GameManagement.AddPublisher | Game-Development-System/game_managment_system.py:258-261 | a non-Publisher raises TypeError; otherwise it is appended and nothing else changes |
| Hospital.ValidateName | Hospital-Management-System/hospital.py:18-24 | a name is accepted iff it is a non-empty str, stored unstripped (whitespace-only names pass); otherwise TypeError or ValueError |
| Hospital.ValidateAge | Hospital-Management-System/hospital.py:30-36 | an age is accepted iff it is an int (bool included) and non-negative; otherwise TypeError or ValueError |
| Hospital.ValidatePhone | Hospital-Management-System/hospital.py:53-63 | a phone number is accepted iff it is a str matching the pattern, and is stored unchanged |
| Hospital.ValidatePerson | Hospital-Management-System/hospital.py:10-12 | the name is checked before the age, and the first failure decides the error |
| Hospital.NewPatient | Hospital-Management-System/hospital.py:41-47 | the id is taken and the counter advanced once name and age pass, even if the phone is then refused; a missing history becomes [] |
| Hospital.RefusedPhoneConsumesId | Hospital-Management-System/hospital.py:42-45 | a refused phone uses up an id; a refused name does not |
| Hospital.PatientIdsDiffer | Hospital-Management-System/hospital.py:43-44 | two patients created one after the other from the counter get different ids |
| Hospital.NewDoctor | Hospital-Management-System/hospital.py:79-84 | a doctor is created iff name and age pass; it stores the name as given and the age, the specialization and contact unchecked, and takes the id from the counter |
| Hospital.NewNurse | Hospital-Management-System/hospital.py:93-97 | a nurse is created iff name and age pass; it stores the name as given, the age and the contact, and takes the id from the counter |
| Hospital.NewConsultation | Hospital-Management-System/hospital.py:123-125 | a consultation always lasts 30 minutes |
| Hospital.AddMedicalHistory | Hospital-Management-System/hospital.py:65-68 | a non-Procedure fails the assertion; otherwise exactly one record with the procedure's price is appended and nothing else changes |
| Hospital.ScheduleAppointment | Hospital-Management-System/hospital.py:70-73 | a non-Procedure fails the assertion; otherwise the procedure is appended and the history is untouched |
| Hospital.RecordAllAppends | Hospital-Management-System/hospital.py:65-68 | recording a series appends one record per procedure, in order, and keeps the earlier history |
| Hospital.EmptyHospital | Hospital-Management-System/hospital.py:134-137 | a new hospital has no staff, patients or procedures |
| Hospital.AddDoctor | Hospital-Management-System/hospital.py:139-141 | a non-Doctor fails the assertion; otherwise the doctor is stored under its id, replacing any entry with that id, and nothing else changes |
| Hospital.AddNurse | Hospital-Management-System/hospital.py:143-145 | a non-Nurse fails the assertion; otherwise the nurse is stored under its id, replacing any entry with that id, and nothing else changes |
| Hospital.AddPatient | Hospital-Management-System/hospital.py:147-149 | a non-Patient fails the assertion; otherwise the patient is stored under its id, replacing any entry with that id, and nothing else changes |
| Hospital.AddProcedure | Hospital-Management-System/hospital.py:151-153 | a non-Procedure fails the assertion; otherwise the procedure is appended and nothing else changes |
| Hospital.NewPatientIsFresh | Hospital-Management-System/hospital.py:147-149 | a patient taken from the counter is new to a registry filled from that counter, so registering it adds one patient and keeps the others |

## Left out

- Reading files: I/O and UTF-8 decoding are a parameter, `Files.FileSystem`. A read that raises is `None`, which gives `OSError`; the exact exception class beyond FileNotFoundError is not modelled.
- Character classes: `\w`, `\d`, `lower()` and `casefold()` are ASCII only. Unicode letters and digits, and Unicode case mapping, are not modelled.
- Numerals.ParseInt: Unicode digits are not modelled, and only bases 10 and 16 are covered. Surrounding whitespace is str.isspace() without U+001C..U+001F, which int() refuses anywhere in the text.
- `search_engine_GUI.py`, `main.py`, the CLI menus (`search_engine_utils.py`), `view_file_content`, `display_search_results` and `get_indexed_files`: these are input/output plumbing.
- The "Indexed N web pages" report: it counts every listed ".txt" path, skipped ones included, as the code does. The model reports that count but does not print.
- The `print`, colorama, `time.sleep` and `os.system("clear")` side effects, and `__print_board`.
- `np.random.shuffle`: any permutation of the deck is allowed (`MemoryBoard.IsDeal`).
- The window game's widgets, timers, pause, restart, leaderboard, fullscreen, background animation and `interpolate_color`, which uses floating point.
- MemoryGui.Click: a clicked card is shown on its button and is not marked founded, so the model keeps no "shown" state.
- Cells.NewCell: cell values are integers. The source accepts any value.
- HexColor.ColorRoundTrip: holds only for components in 0..255. A component of 256 or more is formatted with more digits and does not round-trip.
- Game `__str__`, `list_games`, `display_info`, `play`, and the string form of a procedure: formatting only. A medical-history record keeps the procedure itself in place of `str(procedure)`.
- GameManagement.ValidatePrice: float prices are reals. NaN and infinities are not modelled.
- Game-management platforms store developer and publisher ids rather than the objects. Games live once in a catalog keyed by id, so sharing by reference is modelled by id.
- Hospital: `administration`, `make_surgery`, `make_consultation` and the `random.choice` of staff are menus and prints.
- Hospital: list aliasing of a medical history passed in by the caller is not modelled. The duration is whole seconds.
- Class-level counters are explicit values passed in and returned.
- MemoryGame.PlayRound and MemoryGame.Play use the corrected CheckCords. In run() as written, an out-of-grid pick makes IndexError escape the loop (see Findings); only CheckCordsAsWritten models that.
- GuiSearchEngine.SetIndex and CliSearchEngine.SetIndex take a map from terms to postings lists. Python accepts any dict there, and with non-list values a later index_files raises AttributeError midway through a file. Nothing in the repository calls the setter that way.
- InvertedIndex.Search returns a map. The insertion order of search()'s result dict is not kept; it follows the query's first occurrences and only affects the order in which results are displayed.

## Findings

| source | as written | input that shows it | evidently intended | confidence | as-written member | corrected member |
|---|---|---|---|---|---|---|
| Game-Development-System/Memory-Game/memory_game.py:37-45 | `__check_cords` probes `board[x][y]` but catches only ValueError, so coordinates outside the grid raise IndexError out of `run()` | on a 2x2 board, the line "2 0" | an out-of-grid pick is refused and the next line is read, like a non-numeric one | not executed | MemoryGame.OutOfGridEscapes | MemoryGame.OutOfGridAsksAgain |
