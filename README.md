# A model of the community bot's three state machines

The bot runs three small sequential state machines behind its chat buttons and commands.
This project models each of them in Dafny and proves what each promises.

* **Consultation ticket queue** (`consultation_queue.dfy`, module `ConsultationQueue`):
  - State: a ticket counter, a first-in-first-out list of waiting tickets, and a flag
    saying that the head ticket is being served.
  - Requester actions: request a ticket, which is a duplicate check followed by issuing
    the ticket.
  - Administrator actions: start, complete the head, complete a ticket by number, and
    reset.
  - The admin panel is a read-only projection of the queue: status tags, the waiting
    count, the next number, and which buttons are shown.
  - The queue is the class `TicketDesk`, with a `seq` field. Its invariant: ticket
    numbers strictly increase from front to back and stay below the counter, and the
    flag implies a non-empty queue.
* **Falling-block game engine** (`tetrominoes.dfy` and `tetris_game.dfy`, modules
  `Tetrominoes` and `Tetris`):
  - The seven pieces' rotation pictures.
  - The board of integers and the validity test.
  - Move, rotate and hard drop.
  - Locking a piece, clearing full rows, scoring, and the level and speed rules.
  - The game is the class `TetrisGame`, whose methods update its fields in place.
    `State()` and `Counters()` read the fields back as one value. The lock and the
    hard-drop fall are also stated as functions on that value (`AfterLock`, `Dropped`),
    and the lemmas are proved about those functions.
* **Best-of-three rock-paper-scissors match** (`rock_paper_scissors.dfy`, module
  `RockPaperScissors`):
  - The phases are waiting, playing and finished.
  - Each player picks once per round. A round is judged exactly once; asking again
    returns the stored record.
  - The next round, the end-of-match rule, the winner, and a forfeit.

`common.dfy` holds `Option` and `Result`.

The acting user's administrator right is the parameter `isAdmin`. The shape of each new
piece is a parameter, because the engine picks it at random. A refusal the bot would
send as a chat message is a `Refusal` value, or a `false` return.

## Model

| member | source | states |
|---|---|---|
| ConsultationQueue.FindType | main.py:372 | the lookup finds nothing exactly when no menu entry has the value; what it finds is a menu entry with that value |
| ConsultationQueue.LabelKnownIff | main.py:370-373 | a value gets a real label exactly when it is one of the four menu values; every other value is shown as unknown |
| ConsultationQueue.LabelOfMenuEntry | main.py:370-373 | each menu value is shown as its own entry's emoji, a space and its caption |
| ConsultationQueue.LabelsDistinct | main.py:370-373 | two different values, the first of them known, are shown with different labels |
| ConsultationQueue.RemoveKeepsOrder | main.py:462 | taking one ticket out of a queue with increasing numbers keeps the numbers increasing, adds no ticket and shortens the queue by one |
| ConsultationQueue.PanelEntries | main.py:80-91 | the panel lists the first min(10, length) tickets in queue order, each with its number, its requester and its type's label; the head is tagged "being served" exactly when the flag is set and "next up" exactly when it is not; every later ticket is tagged "waiting" |
| ConsultationQueue.ProjectWaitingCount | main.py:100-112 | when the flag implies a non-empty queue, the waiting count is never negative; it is the queue length minus the one ticket being served, and the served number is the head's |
| ConsultationQueue.NextNumberIsUpcomingHead | main.py:100-107 | while a ticket is served, the announced next number is the one that heads the queue once the head is completed; otherwise it is the head, the one a start would serve |
| ConsultationQueue.PanelButtons | main.py:141-153 | "start" is offered exactly when nothing is served and the queue is non-empty; "complete" exactly when the flag is set and the queue is non-empty; never both; refresh and complete-specific always |
| ConsultationQueue.TicketDesk.constructor | main.py:19-21 | a new desk has counter 1, an empty queue and the flag clear, and satisfies the invariant |
| ConsultationQueue.TicketDesk.IssueTicket | main.py:300-311 | the duplicate check finds nothing exactly when the requester holds no ticket; otherwise it returns the requester's first ticket in the queue |
| ConsultationQueue.TicketDesk.SelectCounselingType | main.py:327-342 | the new ticket gets the current counter value; the counter grows by exactly one; the ticket goes at the back; the flag and the invariant are kept |
| ConsultationQueue.TicketDesk.RequestTicket | main.py:300-342 | a request is refused, with the existing ticket and no change, exactly when the requester already holds a ticket; otherwise a ticket is issued as above; requesters stay unique |
| ConsultationQueue.TicketDesk.StartConsultation | main.py:159-172 | refused with no change for a non-administrator or an empty queue; otherwise it serves the head, sets the flag and leaves the queue alone |
| ConsultationQueue.TicketDesk.CompleteConsultation | main.py:190-202 | refused with no change for a non-administrator or an empty queue; otherwise exactly the head leaves, the rest keep their order, and the flag is cleared |
| ConsultationQueue.TicketDesk.IndexOfTicket | main.py:452 | the index of the first ticket with the number, or -1 exactly when there is none |
| ConsultationQueue.TicketDesk.CompleteByNumber | main.py:449-462 | an unknown number changes nothing; a found ticket is the only one removed; the flag is cleared when it was the head and kept otherwise; the invariant is kept |
| ConsultationQueue.TicketDesk.OpenCompleteSpecific | main.py:233-246 | the number form opens exactly for an administrator with a non-empty queue |
| ConsultationQueue.TicketDesk.SubmitCompleteSpecific | main.py:256-287 | text that is not a number is refused with no change; a number is refused with no change exactly when no queued ticket has it; otherwise that ticket alone is removed, the flag cleared only when it was the head |
| ConsultationQueue.TicketDesk.Reset | main.py:477-486 | refused with no change for a non-administrator; otherwise it reports the previous queue length, empties the queue, sets the counter to 1 and clears the flag |
| ConsultationQueue.TicketDesk.RenderPanel | main.py:78-131 | the panel built line by line equals the projection of the queue and the flag, and its waiting count is never negative |
| ConsultationQueue.WalkthroughRequests | main.py:300-342 | three different requesters on a fresh desk are queued as tickets 1, 2 and 3 in request order, with nothing in service |
| ConsultationQueue.WalkthroughStart | main.py:159-172 | an administrator's start sets the in-service flag and leaves the three tickets queued as they were |
| ConsultationQueue.WalkthroughCompletions | main.py:449-462 | completing the served head and then ticket 3 by number leaves ticket 2; a reset then restarts numbering, so the next requester gets ticket 1 again |
| ConsultationQueue.DuplicateRequest | main.py:300-311 | a requester asking a second time is refused with their existing ticket, and the queue still holds only that ticket |
| Tetrominoes.ShapeNumber | tetris_game.py:193 | the number written for a locked shape is its position in the table's key order plus one, the only such position |
| Tetrominoes.RotationCount | tetris_game.py:9-119 | every shape has one, two or four pictures |
| Tetrominoes.RotationCountIsPictureCount | tetris_game.py:9-119 | the reference table has as many entries per shape as there are pictures |
| Tetrominoes.Translate | tetris_game.py:165 | moving cells keeps their count and shifts each one by the offset |
| Tetrominoes.RowCellsShift | tetris_game.py:162-165 | reading a picture row at another position shifts every block by the same amount |
| Tetrominoes.GridCellsShift | tetris_game.py:161-165 | reading a whole picture at another position shifts every block by the same amount |
| Tetrominoes.ShapeOffsets | tetris_game.py:9-119 | every picture has exactly four blocks, within columns 0..3 and rows 1..4; the first picture stays within columns 0..2; the rotation is taken modulo the picture count |
| Tetrominoes.OffsetsTable | tetris_game.py:9-119 | reading each picture yields exactly the block offsets of the independent reference table |
| Tetrominoes.PictureAt | tetris_game.py:155-166 | reading a shape's picture with its corner at (x, y) yields its reference offsets moved there |
| Tetrominoes.TableShaped | tetris_game.py:9-119 | every reference entry is four blocks in columns 0..3 and rows 1..4, and a first picture stays in columns 0..2 |
| Tetris.Spawn | tetris_game.py:145-153 | a new piece has the given shape, rotation 0 and row 0, and its four-column picture is centred: the right margin equals the left one or is one wider |
| Tetris.PieceBlocksAt | tetris_game.py:155-166 | a piece covers exactly four cells, within four columns from its x and rows y+1..y+4 |
| Tetris.EmptyBoard | tetris_game.py:127 | the empty board has `height` rows of `width` zero cells |
| Tetris.SpawnFitsEmpty | tetris_game.py:145-153 | a freshly spawned piece of any shape fits an empty board at least 4 wide and 5 tall |
| Tetris.DropDistance | tetris_game.py:270-272 | a piece that fits passes only through fitting positions and stops at the first one directly above a position that does not fit |
| Tetris.DropStep | tetris_game.py:270-272 | when the next row down fits, the piece falls exactly one row more than it can from there, and it is above the floor |
| Tetris.Overlay | tetris_game.py:195-197 | writing cells keeps the board's shape |
| Tetris.OverlayAt | tetris_game.py:195-197 | after the write, a board cell holds the shape number exactly when it is listed, and is untouched otherwise |
| Tetris.OverlayKeepsBoard | tetris_game.py:195-197 | writing a shape number 1..7 keeps the board a board of empty cells and shape numbers |
| Tetris.FullRowsExact | tetris_game.py:213-216 | the scan lists exactly the full rows, each once, in increasing order |
| Tetris.FullRowsAboveExact | tetris_game.py:214-216 | the scan of the top y rows, row after row, lists exactly the full ones among them, each once, in increasing order |
| Tetris.FullRowsAboveAll | tetris_game.py:212-216 | scanning every row from the top, as the loop does, yields the list of full rows |
| Tetris.FirstFullRowDeleted | tetris_game.py:220-221 | deleting the topmost full row keeps every row above it and leaves the other full rows at their old indices |
| Tetris.DeleteRowAt | tetris_game.py:220-221 | after one deletion and insertion, row 0 is empty, the rows above the deleted one move down by one, and those below stay |
| Tetris.DeleteRowKeepsBoard | tetris_game.py:220-221 | one deletion and insertion keeps the board's shape and contents range |
| Tetris.ClearRowsAsWritten | tetris_game.py:219-221 | the reverse-order deletion loop keeps the number of rows |
| Tetris.ClearRowsAsWrittenKeepsBoard | tetris_game.py:219-221 | the reverse-order deletion loop keeps the board `height` rows of `width` cells, each empty or a shape number |
| Tetris.TwoFullRowsLeaveOneFull | tetris_game.py:219-221 | with exactly two full rows, the loop as written leaves the upper full row on the board, one row lower and still full |
| Tetris.ClearRows | tetris_game.py:219-221 | the deletion loop in increasing order keeps the number of rows |
| Tetris.ClearRowsKeepsBoard | tetris_game.py:219-221 | the loop keeps the board's shape and contents range |
| Tetris.ClearFullRows | tetris_game.py:213-221 | clearing the full rows leaves one empty row on top for each cleared row, then the rows that were not full, in their old order |
| Tetris.NoFullRowAfterClear | tetris_game.py:213-221 | after the full rows are cleared from a board at least one cell wide, no row is full |
| Tetris.LineScoreRange | tetris_game.py:228-229 | the points before the level multiplier are between 100 and 800 for any count |
| Tetris.LevelNeverDrops | tetris_game.py:232-234 | the level formula is at least 1 and never decreases as more rows are cleared |
| Tetris.FallSpeedBounds | tetris_game.py:235 | the fall speed starts at 500, never drops below 50 and never rises with the level |
| Tetris.ClearBonusGrows | tetris_game.py:228-229 | clears of 1..4 rows earn 100, 300, 500 and 800 points per level, strictly more for more rows |
| Tetris.ClearedKeepsTally | tetris_game.py:223-235 | a clear keeps the counters consistent; the row count grows by the number cleared; the score grows by at least 100 per level when rows were cleared; the level never drops; the speed never rises; clearing nothing changes nothing |
| Tetris.Dropped | tetris_game.py:270-272 | the hard-drop fall changes only the piece's row, which never rises, and the score, which grows by exactly 2 points per row fallen; a piece that fits passes only through fitting positions and stops at the first one directly above a position that does not fit |
| Tetris.AfterLockKeepsGame | tetris_game.py:190-235 | a lock keeps the board a well-formed board with no full row left and keeps the counters consistent; level and score never drop; every row the piece completed is counted (corrected deletion order, see ## Findings) |
| Tetris.TetrisGame.constructor | tetris_game.py:124-143 | a new game has an empty board, zero counters, level 1, speed 500, two spawned pieces, and satisfies the invariant |
| Tetris.TetrisGame.ReadPicture | tetris_game.py:161-165 | the nested reading loop yields the picture's blocks row by row |
| Tetris.TetrisGame.ReadRow | tetris_game.py:162-165 | the inner loop yields one row's blocks left to right |
| Tetris.TetrisGame.GetPieceBlocks | tetris_game.py:155-166 | the blocks read off the picture are the piece's reference offsets moved to its corner, four of them |
| Tetris.TetrisGame.IsValidPosition | tetris_game.py:168-188 | the test is true exactly when every block of the moved or turned piece is within the walls, above the floor and, if on the board, on an empty cell |
| Tetris.TetrisGame.BlocksFree | tetris_game.py:182-188 | the check loop returns true exactly when every block passes |
| Tetris.TetrisGame.ClearLines | tetris_game.py:210-235 | the board becomes the cleared board of the rows full on entry; the counters follow the clear rule for that many rows; the level never drops; the pieces and flags stay (corrected deletion order, see ## Findings) |
| Tetris.TetrisGame.FindFullRows | tetris_game.py:212-216 | the scan returns exactly the full rows, in increasing order |
| Tetris.TetrisGame.RemoveRows | tetris_game.py:219-221 | the deletion loop leaves the board that deleting the given rows in increasing order gives, and changes nothing else |
| Tetris.TetrisGame.ScoreLines | tetris_game.py:223-235 | the counters follow the clear rule for n rows; they stay consistent; the level never drops; nothing else changes |
| Tetris.TetrisGame.PlacePiece | tetris_game.py:190-208 | the game becomes `AfterLock` of the game before: blocks written, full rows cleared and scored, the next piece falling, a new next piece, and game over exactly when the new piece does not fit |
| Tetris.TetrisGame.SpawnNext | tetris_game.py:202-208 | the next piece falls, a fresh piece of the given shape is next, and the game is over exactly when the falling piece does not fit |
| Tetris.TetrisGame.StampBlocks | tetris_game.py:192-197 | the stamping loop writes the shape number into the piece's cells on the board and changes nothing else |
| Tetris.TetrisGame.MovePiece | tetris_game.py:237-250 | refused with no change when over or paused; a move that fits moves only the piece; a blocked downward move locks the piece and still succeeds; any other blocked move is refused with no change; a moved piece fits |
| Tetris.TetrisGame.RotatePiece | tetris_game.py:252-263 | succeeds exactly when running and the next picture (modulo the count) fits, then only the rotation changes; otherwise nothing changes; the rotation stays below the picture count |
| Tetris.TetrisGame.HardDrop | tetris_game.py:265-275 | refused with no change when over or paused; otherwise the game becomes `AfterLock(Dropped(...))` of the game before: the piece falls as far as it fits, 2 points a row, then locks |
| Tetris.TetrisGame.Fall | tetris_game.py:270-272 | the game becomes `Dropped` of the game before; it stays valid and running |
| Tetris.TetrisGame.FallTarget | tetris_game.py:270-272 | the fall loop stops after exactly the drop distance, at a position that fits directly above one that does not |
| Tetris.TetrisGame.DisplayCells | tetris_game.py:283-295 | each displayed cell holds the falling piece's shape number when the piece covers it, unless the game is over (a paused game still shows the piece), and the board's value otherwise |
| RockPaperScissors.Judge | rock_paper_scissors_game.py:104-119 | a draw exactly when both chose the same; a host win exactly when the host's choice beats the opponent's; an opponent win exactly when the opponent's choice beats the host's |
| RockPaperScissors.JudgeSwapped | rock_paper_scissors_game.py:104-119 | swapping the players keeps draws and swaps the two kinds of win |
| RockPaperScissors.RecordFor | rock_paper_scissors_game.py:104-127 | the record carries the round, both choices and the verdict; the winner is the host on a host win, the opponent on an opponent win, and nobody on a draw |
| RockPaperScissors.OutcomesPartition | rock_paper_scissors_game.py:104-129 | the counts of draws, host wins and opponent wins in a history add up to its length |
| RockPaperScissors.HistoryBound | rock_paper_scissors_game.py:121-137 | a history whose round numbers increase within 1..n holds at most n rounds |
| RockPaperScissors.RockPaperScissorsGame.constructor | rock_paper_scissors_game.py:32-55 | a new match waits with no opponent, round 1, no wins, no picks, no history |
| RockPaperScissors.RockPaperScissorsGame.JoinGame | rock_paper_scissors_game.py:57-64 | succeeds exactly while waiting and for someone other than the host; it then records the opponent and starts play; otherwise nothing changes |
| RockPaperScissors.RockPaperScissorsGame.MakeChoice | rock_paper_scissors_game.py:66-82 | succeeds exactly while playing, for the host or the opponent, when that player has not picked this round; only that pick changes; otherwise nothing changes |
| RockPaperScissors.RockPaperScissorsGame.ChoicesMadeInPlay | rock_paper_scissors_game.py:84-86 | in a valid match both players have picked only after the opponent joined, and always once the round is judged |
| RockPaperScissors.RockPaperScissorsGame.GetRoundResult | rock_paper_scissors_game.py:88-132 | nothing until both picked; the first call judges the round, adds one win to the winner only, and appends the record; later calls return that record and change nothing |
| RockPaperScissors.RockPaperScissorsGame.JudgeRound | rock_paper_scissors_game.py:101-130 | judging appends the round's record, adds one to the winner's counter (none on a draw), and marks the round judged |
| RockPaperScissors.RockPaperScissorsGame.LookUpCurrentRound | rock_paper_scissors_game.py:94-98 | the history scan for the judged round finds its record, which is the last one |
| RockPaperScissors.RockPaperScissorsGame.NextRound | rock_paper_scissors_game.py:134-144 | the round number and played count grow by one, the picks and the judged flag are cleared, and the match is finished exactly when a player has two wins or three rounds are played (otherwise its phase stays) |
| RockPaperScissors.RockPaperScissorsGame.GameWinner | rock_paper_scissors_game.py:146-156 | nobody before the match is finished; then the player with strictly more wins; nobody on a tie |
| RockPaperScissors.RockPaperScissorsGame.Forfeit | rock_paper_scissors_game.py:516-533 | accepted exactly from the host or the opponent, and then the match is finished with the quitter on 0 wins and the other on 2, so the other player wins; anyone else changes nothing |
| RockPaperScissors.RockPaperScissorsGame.PlayingBounds | rock_paper_scissors_game.py:142-144 | while the match is played, fewer than three rounds are behind it, at most three are recorded, and the win counters add up to at most the rounds recorded |
| RockPaperScissors.ResultTwice | rock_paper_scissors_game.py:93-130 | asking twice for a round's result returns the same record and counts at most one win |
| RockPaperScissors.HostWinsTwoStraight | rock_paper_scissors_game.py:142-156 | a match the host wins twice in a row is finished after two rounds, with the host as winner |
| RockPaperScissors.PlayHostWin | rock_paper_scissors_game.py:66-144 | one round of rock against scissors adds a host win; it finishes the match when the host already had a win, and keeps it going after a first win in round 1 |

## Left out

- Chat platform: the views, buttons, modals, select menus, embeds and messages are not
  modelled. Neither are the admin-channel history scan, command registration, `on_ready`
  and `bot.run`. What remains of them is the state change and the refusal reason.
- Asynchronous plumbing: the notification tasks, the automatic fall loop and the sleeps
  are not modelled. The queue is modelled sequentially, so the race between the
  duplicate check and the append is not represented. `RequestTicket` runs the two steps
  back to back, and `SelectCounselingType` alone shows that the append does not check
  again.
- Clock and floating point: ticket timestamps, `start_time`, play time, and the
  conversion of the fall speed to seconds are not modelled.
- Randomness: the shape of a new piece is the parameter `newShape` (or `first` and
  `second` for a new game).
- Statistics recording (`record_callback`, `save_game_record`) and achievement texts are
  not modelled.
- Emoji and text presentation: the emoji map of the board display, the score text and
  the result strings are not modelled. The board display is modelled down to its integer
  overlay (`DisplayCells`); a round's result is an `Outcome`.
- `int()` parsing of the number form: the parse is the parameter `input: Option<int>`,
  where `None` stands for a `ValueError`.
- The `/queue` (`/대기열`), admin-panel and announcement commands only display or
  forward text, so they are not modelled.
- ConsultationQueue.TicketDesk.RequestTicket: the ticket's `username` and `kind` come
  from the chat user and the menu selection and are taken as parameters.
- Tetris.TetrisGame.constructor: it requires a board at least 4 wide and 5 tall so that
  the first piece fits. The source only builds 10 × 20 boards.
- Tetris.TetrisGame.PlacePiece: the source passes the piece to lock as an argument, and
  every call passes the falling piece, so the model always locks the falling piece. The
  method requires a running game whose falling piece fits; this holds at every call site.
  With an out-of-range block the Python write would raise or wrap around a negative
  index.
- Tetris.TetrisGame.HardDrop: the fall runs on a copy of the piece (`FallTarget`). The
  piece and the score are then written back once (`Fall`) instead of row by row. The
  final state is the same.
- RockPaperScissors.RockPaperScissorsGame.LookUpCurrentRound: the source returns an
  empty result when the history scan finds no record. The model omits that fallback,
  because the invariant guarantees that the scan finds the record.

## Findings

| source | as written | input that shows it | evidently intended | confidence | as-written member | corrected member |
|---|---|---|---|---|---|---|
| tetris_game.py:219-221 | the full rows are deleted in decreasing index order, with an empty row inserted at the top after each deletion. Each insertion shifts the rows above down by one, so after j deletions an index names the row j above the intended one, or an inserted empty row when fewer than j rows lie above the intended one | any board with exactly two full rows, for example rows 18 and 19 of a 20-row board: row 19 is deleted, the old row 18 moves to 19, and the loop then deletes the old row 17; the full row remains at index 19 | every row full on entry is removed, and the rows that were not full move down | not executed | Tetris.TwoFullRowsLeaveOneFull (about Tetris.ClearRowsAsWritten) | Tetris.ClearRows with Tetris.ClearFullRows and Tetris.NoFullRowAfterClear; `ClearLines`, `RemoveRows` and `AfterLock` delete in increasing order |

The scoring and the line count are unaffected by this finding. They use the number of
rows found full on entry, both in the code as written and in the corrected model.
