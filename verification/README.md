# Printer firmware: verified algorithms

This project models nine algorithmic parts of a printer firmware tree in Dafny 4.11 and
proves what they promise. Each part has a simple meaning that the C code reaches in a
roundabout way; the theorems connect the two for all inputs, all runs or all interleavings.

| part | files | meaning |
|---|---|---|
| delta-queue timer | Timer*.dfy | one hardware timer and a list of relative delays are a sorted list of absolute deadlines |
| bitmap rotation | NupWord, NupStrips, NupHalfTurn, NupQuarterTurn, NupTurns | word-wise rotation over linked strips is a permutation of pixels; 90 degrees twice is 180 |
| n-up compositor | NupDraw, NupRender, NupLayout, NupCells, NupPages | clipping, seeking, shifting and ORing strip by strip is one OR of whole pages; cells do not bleed; pages balance |
| JSON tokenizer | Jsmn*.dfy | a flat token array is a forest, parsing is a pushdown machine, and it can be resumed |
| command wrapper | CmdOutput, CmdHandshake | staging buffer, ring and block-swap rotation keep the last characters; three semaphores serialize callers |
| debug output | DbgRing, DbgDrain | a ring and two flags deliver every character, in order |
| delay manager | DelayTable, DelayRuns, DelayPromises | an aged, compacted table notifies everyone on time |
| log levels | LogFlags, LogDump, LogReplay, LogNames | printing the settings as a program and running it restores them |
| command tree | CmdTree, CmdSort | registering a path makes exactly that path lead to the new node; the sorted chain is complete |

Code that works in place is modelled by classes and arrays with loops and invariants, and
each such method is proved equal to a function of the state before it; the properties are
lemmas about those functions. Image words are sequences of bits, most significant first,
which is what the byte-order conversions of the source establish. A strip list shows an
image when the buffer of each strip is its band of rows laid end to end (`NupStrips`).
`SeqFacts` holds the facts about sequences that several modules use.

## Where the code does not meet the plain intent

- 180 degree rotation with an odd number of rows: the pass over the middle row undoes
  itself (`NupHalfTurn.MiddlePass`), and if that row is alone in its strip the pointers pass
  each other unseen (`PointersCrossed`) and the walk puts all rows back (`AloneUndoes`). The
  image comes out right for all contents exactly when the middle row of an odd number is not
  alone in its strip and has at most one word (`UpsideDownExactly`).
- Rendering leaves out the last strip of the page and the object bits in a last byte that
  is not filled; both are part of the statement of `NupRender.Render` and `NupDraw.Reaches`.
  The cut at the end of the line is too lax by a factor of bits per pixel
  (`NupRender.CutKeepsLine`).
- `dbg_outbuf_sync` can return with a character still in the ring (`DbgDrain.SyncCanMiss`).
  What it has waited for is said by `NodataMeans`, and it is right exactly for characters
  added while the output thread is not about to set NODATA (`SyncWorksExactly`).
- A cancel message that is handled after its record was freed frees it twice
  (`TimerRuns.LateCancelFreesTwice`); that is exactly the case in which records are not
  conserved (`CancelConservesExactly`, `AskIsSafeExactly`).
- When the tick counter of the delay manager wraps, one tick goes missing
  (`DelayTable.TranspiredExactly`).
- The log dump does not restore a module with a partly enabled submodule that has no name,
  or whose name is the beginning of an earlier one (`LogReplay.DumpRestores`).

## Model

| member | source | states |
|---|---|---|
| TimerQueue.ArmRefines | lsp_shiloh/common/delay/src/timerdelay.c:319-416 | Arming a timer at any moment of the head's countdown adds exactly its deadline, now + ticks, to the list of absolute deadlines and changes no other, in 32-bit arithmetic; no delta underflows. |
| TimerQueue.InsertDueIsStable | lsp_shiloh/common/delay/src/timerdelay.c:355-410 | The place of the new deadline: after all that are earlier or equal, before all later ones, so equal deadlines keep arming order and the list stays sorted. |
| TimerQueue.PlaceRefines | lsp_shiloh/common/delay/src/timerdelay.c:372-410 | The walk down the list that splits the delta of the follower files the new deadline among the absolute ones. |
| TimerQueue.CancelRefines | lsp_shiloh/common/delay/src/timerdelay.c:457-506 | Cancelling a queued timer removes its absolute deadline and no other, unless the head is within a tick of expiry, when nothing changes. |
| TimerQueue.TakeOutRefines | lsp_shiloh/common/delay/src/timerdelay.c:488-500 | Unlinking a node and giving its delta to the follower removes one deadline. |
| TimerQueue.CoalesceIsWindow | lsp_shiloh/common/delay/src/timerdelay.c:556-571 | The loop that pops followers while their summed deltas fit three ticks takes exactly the deadlines at most three ticks away. |
| TimerWorld.StartRefines | lsp_shiloh/common/delay/src/timerdelay.c:319-446 | With the hardware timer: a start files now + ticks, and afterwards the hardware counts exactly the head's delay, whether or not it was reprogrammed. |
| TimerWorld.CancelKeepsDeadlines | lsp_shiloh/common/delay/src/timerdelay.c:457-506 | The cancel message takes one deadline out of the running system, and the hardware goes on counting the new head. |
| TimerWorld.CancelTouchesOnly | lsp_shiloh/common/delay/src/timerdelay.c:457-506 | A flagged record goes to the front of the free list unless it is the head and due within a tick; no other record, flag or use is touched. |
| TimerWorld.TooLateMeans | lsp_shiloh/common/delay/src/timerdelay.c:457-506 | A cancel comes too late for the head alone, and just when that is due within a tick. |
| TimerWorld.BatchIsWindow | lsp_shiloh/common/delay/src/timerdelay.c:538-580 | An expiry fires the head and exactly those whose deadline is at most three ticks later; the others keep their deadlines. |
| TimerWorld.PopRefines | lsp_shiloh/common/delay/src/timerdelay.c:538-602 | After an expiry the list holds the unfired deadlines unchanged and, for each repeat, the end of the batch plus its period: between its own deadline plus the period and three ticks later. |
| TimerRuns.PopConserves | lsp_shiloh/common/delay/src/timerdelay.c:508-602 | An expiry puts every record of the batch in exactly one new place: free list, repeat list and so the queue again, or its woken caller. |
| TimerRuns.ExpirySorts | lsp_shiloh/common/delay/src/timerdelay.c:508-602 | Where the fired records go, by what they are: the blocking ones to their callers; those that are cancelled or one-shot to the front of the free list, the last fired first; the other repeats to the repeat list, the last first; and the callbacks and wake-ups happen once each, in queue order, for those that are blocking or not cancelled. |
| TimerRuns.CancelConservesExactly | lsp_shiloh/common/delay/src/timerdelay.c:457-506 | A cancel message keeps every record in exactly one place if and only if a record flagged as cancelled is still queued when the message is handled. |
| TimerRuns.AskIsSafeExactly | lsp_shiloh/common/delay/src/timerdelay.c:448-506 | In every reachable state a caller may cancel a timer if and only if it is still queued: then no later step loses or doubles a record, else handling the message frees it twice. |
| TimerRuns.LateCancelFreesTwice | lsp_shiloh/common/delay/src/timerdelay.c:448-535 | A run at the end of which a one-shot has fired and its record is free; cancelling it then puts the record on the free list twice. |
| TimerRuns.NextGood | lsp_shiloh/common/delay/src/timerdelay.c:193-602 | Every step of callers, messages and hardware keeps the invariant that ties flags, deadlines, plans and places together. |
| TimerRuns.LastBackFirstOut | lsp_shiloh/common/delay/src/timerdelay.c:193-227 | The record given back last is the first to go out again. |
| TimerRuns.TimersKeepTheirPromises | lsp_shiloh/common/delay/src/timerdelay.c:193-602 | Over every run: each record is in one place, firing n of a timer armed at a with period p happens no sooner than a + n*p - 3 and no later than a + n*p + 3*(n-1), and never after a cancel was asked for. |
| TimerDelay.TimerService.PushFree | lsp_shiloh/common/delay/src/timerdelay.c:193-196 | The record goes to the front of the free list; nothing else changes. |
| TimerDelay.TimerService.PopFree | lsp_shiloh/common/delay/src/timerdelay.c:213-227 | A record is taken from the free list, or made when it is empty. |
| TimerDelay.TimerService.DelayAux | lsp_shiloh/common/delay/src/timerdelay.c:319-446 | The pointer-walking insertion under the running timer leaves the state that the specification of a start gives. |
| TimerDelay.TimerService.Cancel | lsp_shiloh/common/delay/src/timerdelay.c:448-455 | Asking for a cancel sets one flag. |
| TimerDelay.TimerService.HandleTimerCancel | lsp_shiloh/common/delay/src/timerdelay.c:457-506 | The search, unlink and reprogramming leave the state that the specification of a cancel gives. |
| TimerDelay.TimerService.TicklePopTimer | lsp_shiloh/common/delay/src/timerdelay.c:508-535 | What becomes of one popped timer: woken, freed as cancelled, kept for another round, or called back and freed. |
| TimerDelay.TimerService.HandleTimerPop | lsp_shiloh/common/delay/src/timerdelay.c:538-602 | The batch loop, the re-arming of repeats and the restart leave the state that the specification of an expiry gives, and the callbacks run in queue order. |
| NupWord.MovePixelMeans | lsp_shiloh/common/generators/src/nup_rotate.c:28-40 | The shift, mask and OR of both rotations move one pixel of a word to one place and leave the others. |
| NupWord.PixelSwap | lsp_shiloh/common/generators/src/nup_rotate.c:28-40 | The word comes out with its pixels in the opposite order. |
| NupWord.ReversedPixels | lsp_shiloh/common/generators/src/nup_rotate.c:28-40 | Pixel k of the swapped word is pixel n - 1 - k of the word. |
| NupWord.ReversedTwice | lsp_shiloh/common/generators/src/nup_rotate.c:28-40 | Swapping is an involution. |
| NupStrips.FlatPut | lsp_shiloh/common/generators/src/generator_nup.h:181-187 | Writing one word of a strip's buffer changes one word of one row of the image, for any width. |
| NupStrips.Store | lsp_shiloh/common/generators/src/generator_nup.h:181-187 | A write into one strip of a list leaves the list showing the image with that one word changed. |
| NupHalfTurn.ExchangeRows | lsp_shiloh/common/generators/src/nup_rotate.c:823-852 | The exchange of two rows word by word from opposite ends, across any strips, is the composition of its single exchanges. |
| NupHalfTurn.RowPassTurns | lsp_shiloh/common/generators/src/nup_rotate.c:804-859 | One pass over two rows, white-out of the padding included, turns each into the other reversed with its right padding white. |
| NupHalfTurn.WalkStops | lsp_shiloh/common/generators/src/nup_rotate.c:811-822 | The pointer test that ends the walk is true after the last pass and not before. |
| NupHalfTurn.PointersCrossed | lsp_shiloh/common/generators/src/nup_rotate.c:811-822 | After the last pass the test is true if and only if the middle row of an odd number is not alone in its strip. |
| NupHalfTurn.Rotate180 | lsp_shiloh/common/generators/src/nup_rotate.c:722-871 | The two-pointer walk over any strip partition leaves the strips showing the outcome: upside down, padding white, but for an odd middle row. |
| NupHalfTurn.MiddlePass | lsp_shiloh/common/generators/src/nup_rotate.c:823-859 | The middle row of an odd number keeps its words where they were; only its centre word is reversed. |
| NupHalfTurn.OutcomeTurns | lsp_shiloh/common/generators/src/nup_rotate.c:722-871 | With an even number of rows, or at most one word to a row, the outcome is the image upside down. |
| NupHalfTurn.OutcomeMisses | lsp_shiloh/common/generators/src/nup_rotate.c:722-871 | With an odd number of rows and more than one word to a row some image comes out wrong; the lemma gives one. |
| NupHalfTurn.EndsExactly | lsp_shiloh/common/generators/src/nup_rotate.c:754-822 | The walk ends if and only if the middle row of an odd number is not alone in its strip, and then after half of the rows. |
| NupHalfTurn.UpsideDownExactly | lsp_shiloh/common/generators/src/nup_rotate.c:722-871 | The branch ends with every image upside down if and only if a middle row of an odd number is not alone in its strip and at most one word long. |
| NupHalfTurn.AloneUndoes | lsp_shiloh/common/generators/src/nup_rotate.c:754-863 | If the middle row is alone in its strip the walk passes over all rows again, which puts them back with white padding, until the strips run out. |
| NupQuarterTurn.GatherMeans | lsp_shiloh/common/generators/src/nup_rotate.c:303-340 | After k source rows an output word holds the k pixels in its rightmost places, that of the first row rightmost. |
| NupQuarterTurn.MoveRow | lsp_shiloh/common/generators/src/nup_rotate.c:327-340 | The inner loop adds one pixel of the source word to every output word. |
| NupQuarterTurn.WriteOut | lsp_shiloh/common/generators/src/nup_rotate.c:351-407 | A full output buffer goes to consecutive destination rows, running over into the next strip, and is left clear. |
| NupQuarterTurn.ColumnBlock | lsp_shiloh/common/generators/src/nup_rotate.c:237-460 | One column of source words, read across all source strips, fills its rows of the destination from right to left. |
| NupQuarterTurn.BlocksTurn | lsp_shiloh/common/generators/src/nup_rotate.c:196-479 | All columns together: destination pixel (r, c) is source pixel (rows - 1 - c, r). |
| NupQuarterTurn.Rotate90 | lsp_shiloh/common/generators/src/nup_rotate.c:196-479 | The 90 degree branch, for any source strips and equal destination strips of at least 32 / bpp lines, puts every pixel (r, c) at (c, rows - 1 - r) and touches no other row. |
| NupTurns.HalfTurnPixel | lsp_shiloh/common/generators/src/nup_rotate.c:722-871 | Upside down means: pixel (r, c) comes from (rows - 1 - r, width - 1 - c). |
| NupTurns.HalfTurnTwice | lsp_shiloh/common/generators/src/nup_rotate.c:722-871 | Turning an unpadded image upside down twice gives it back. |
| NupTurns.QuarterTwiceIsHalf | lsp_shiloh/common/generators/src/nup_rotate.c:196-479 | Taking the 90 degree rotation twice gives what the 180 degree rotation gives. |
| NupDraw.DrawLineBit | lsp_shiloh/common/generators/src/generator_nup.c:1540-1618 | Drawing an object line at any bit offset is OR, bit by bit, of the line moved there; the bits of an unfilled last byte do not reach the page. |
| NupDraw.ReachesWithin | lsp_shiloh/common/generators/src/generator_nup.c:1549-1610 | The bits drawn are all of the object but the last (x + bits) % 8. |
| NupDraw.DrawnInPieces | lsp_shiloh/common/generators/src/generator_nup.c:1941-2030 | Drawing all objects on the upper rows and then on the lower ones is drawing them on all rows. |
| NupDraw.DrawnInTurn | lsp_shiloh/common/generators/src/generator_nup.c:1171-1176 | Rendering the images one call after the other draws the list of them all. |
| NupDraw.DrawnIsOr | lsp_shiloh/common/generators/src/generator_nup.c:1941-2030 | The drawn page is the OR of the old page and of every object at its place, bit by bit, and nothing else changes. |
| NupDraw.OrderDoesNotMatter | lsp_shiloh/common/generators/src/generator_nup.c:1941-2030 | Objects in another order give the same page. |
| NupRender.CutKeepsLine | lsp_shiloh/common/generators/src/generator_nup.c:1530-1539 | The cut at the end of the page line keeps the object on the line if and only if it does not overhang by less than the factor bpp by which the test is too lax. |
| NupRender.LengthsCount | lsp_shiloh/common/generators/src/generator_nup.c:1459-1539 | An entry that gives lengths draws that part of the object, one that gives none all of it. |
| NupRender.CopyLine | lsp_shiloh/common/generators/src/generator_nup.c:1540-1618 | The byte loop with its residue draws one object line on one page line. |
| NupRender.SeekStrip | lsp_shiloh/common/generators/src/generator_nup.c:1484-1500 | The seek finds the source strip and the line within it of any row of the object. |
| NupRender.CopyObject | lsp_shiloh/common/generators/src/generator_nup.c:1459-1623 | The rows of the object that a strip gets are drawn in order, through source strips of any heights. |
| NupRender.PlaceObject | lsp_shiloh/common/generators/src/generator_nup.c:1640-1858 | The clipping arithmetic hands the strip exactly the object's rows that lie on it. |
| NupRender.Render | lsp_shiloh/common/generators/src/generator_nup.c:1894-2032 | Strip by strip rendering of a display list is one whole-page drawing of all rows above the last strip. |
| NupLayout.FourUpPlace | lsp_shiloh/common/generators/src/generator_nup.c:275-356 | Four to a page: portrait pages 1 to 4 are top left, top right, bottom left, bottom right, landscape ones top right, bottom right, top left, bottom left; each in the middle of its quarter but for half of the padding; scans from the feeder turned by 180 degrees, others not. |
| NupLayout.TwoUpPlace | lsp_shiloh/common/generators/src/generator_nup.c:240-274 | Two unrotated images: upper half, then lower, each in the middle but for half of the padding. |
| NupLayout.TwoUpTurnedPlace | lsp_shiloh/common/generators/src/generator_nup.c:240-274 | Two rotated images: the same with width and height exchanged, the remainder of the height added, and the turn that orientation and source ask for. |
| NupLayout.OneUpPlace | lsp_shiloh/common/generators/src/generator_nup.c:225-239 | One rotated image: in the middle of the page but for the paddings and the remainder of its height, turned by 90 degrees. |
| NupLayout.WholePagePlace | lsp_shiloh/common/generators/src/generator_nup.c:214-222 | For ID n-up and the merge without rotation, and for counts the code does not know: the top left corner, unrotated. |
| NupLayout.CellsAtHome | lsp_shiloh/common/generators/src/generator_nup.c:200-356 | An image that fits its part lies inside it, centred to within a pixel. |
| NupLayout.CellsApart | lsp_shiloh/common/generators/src/generator_nup.c:200-356 | Four images, or two unrotated ones, that fit their part of the page lie on the page and do not overlap, in either orientation. |
| NupLayout.NoBleed | lsp_shiloh/common/generators/src/generator_nup.c:200-356 | On a white page each cell ends up with its own image and nothing else, whatever images are drawn in whatever order. |
| NupLayout.NothingOutside | lsp_shiloh/common/generators/src/generator_nup.c:200-356 | Outside the cells the page stays white. |
| NupCells.AllocateStrips | lsp_shiloh/common/generators/src/generator_nup.c:90-158 | The strips of a fresh page cut its rows in order, all of the strip height but the last, and show a white page. |
| NupCells.RenderPage | lsp_shiloh/common/generators/src/generator_nup.c:364-465 | One image that fits its part is drawn whole, where the layout puts it, on all strips but the last. |
| NupCells.DrawnInCells | lsp_shiloh/common/generators/src/generator_nup.c:200-356 | On a white page each cell shows its own image, bit by bit, and all that no cell covers is white. |
| NupCells.WholeCell | lsp_shiloh/common/generators/src/generator_nup.c:1540-1618 | In a cell that ends on a byte of the page every bit is the bit of the image. |
| NupCells.RenderPages | lsp_shiloh/common/generators/src/generator_nup.c:1115-1176 | After the page-end messages of a sheet, in whatever order, each cell of the strips above the last holds its own image and nothing else, the rest is white, and each cell is centred in the part of the page that its page number says. |
| NupCells.RenderSheet | lsp_shiloh/common/generators/src/generator_nup.c:1016-1176 | The same from the allocation of the strips on. |
| NupPages.OnePage | lsp_shiloh/common/generators/src/generator_nup.c:889-943 | A page that does not fill its sheet is held and the one before it freed; one that does is passed on, and not before its end. |
| NupPages.LatePage | lsp_shiloh/common/generators/src/generator_nup.c:889-1232 | A page that asks for a smaller sheet than already waits does not fill it and stays. |
| NupPages.PagesPassedOn | lsp_shiloh/common/generators/src/generator_nup.c:889-1232 | The pages passed on are those that fill a sheet. |
| NupPages.JobBalances | lsp_shiloh/common/generators/src/generator_nup.c:889-1275 | A job of k pages, n to a sheet, passes on ceil(k / n) pages and frees every other one exactly once; none is kept. |
| NupPages.PlainJobPassesOn | lsp_shiloh/common/generators/src/generator_nup.c:889-1275 | A job that is not n-up passes on every page, in order, and frees and keeps none. |
| NupPages.NoPageIsLost | lsp_shiloh/common/generators/src/generator_nup.c:889-1275 | Whatever mixture of pages and ends comes, each page is passed on, freed or held, just once, and the end of the job keeps none. |
| Jsmn.Parser.AllocToken | lsp_shiloh/common/cardreader/src/jsmn.c:8-20 | The next unused token, or none when the array is full. |
| Jsmn.Parser.ParsePrimitive | lsp_shiloh/common/cardreader/src/jsmn.c:37-77 | A primitive adds one token with its bounds, or leaves the parser as it was. |
| Jsmn.Parser.ParseString | lsp_shiloh/common/cardreader/src/jsmn.c:82-129 | A string adds one token with its bounds, or leaves the parser as it was. |
| Jsmn.Parser.Close | lsp_shiloh/common/cardreader/src/jsmn.c:164-198 | A closing bracket ends the innermost open token of its kind and finds the one around it. |
| Jsmn.Parser.Parse | lsp_shiloh/common/cardreader/src/jsmn.c:134-248 | A call leaves the status, the registers and the token array that the one-character-at-a-time specification gives. |
| JsmnText.ScanStringMeans | lsp_shiloh/common/cardreader/src/jsmn.c:92-129 | A string ends at the first quote that an even run of backslashes precedes, if only the nine legal escapes and no NUL stand before it; it is bad at the first other escape, and unfinished if the text ends first. |
| JsmnText.ScanPrimitiveMeans | lsp_shiloh/common/cardreader/src/jsmn.c:45-75 | A primitive ends at the first of the eight delimiters or at the end of the text; it is bad at the first control character or one beyond 126. |
| JsmnForest.StepKeepsForest | lsp_shiloh/common/cardreader/src/jsmn.c:145-233 | Every turn of the loop keeps the tokens a forest: laminar, bracketed, counted, with toksuper the innermost open one. |
| JsmnForest.SuccessIsForest | lsp_shiloh/common/cardreader/src/jsmn.c:134-244 | On success starts strictly increase, any two tokens nest or are apart, containers have matching brackets, strings and primitives are exactly what the text delimits, every size is the number of children, and every character is a separator or belongs to a token. |
| JsmnForest.RunCovers | lsp_shiloh/common/cardreader/src/jsmn.c:134-244 | Whatever the answer, all that has been read is separators and text of the tokens. |
| JsmnForest.AnswerMeans | lsp_shiloh/common/cardreader/src/jsmn.c:134-244 | The place where a call stops tells its answer: at the end with nothing open it has succeeded; INVAL means a bracket that closes nothing of its kind, a bad escape or a bad character there, PART a string or container cut short, and otherwise no token was left. |
| JsmnForest.ParentEncloses | lsp_shiloh/common/cardreader/src/jsmn.c:134-244 | The parent of a token is the innermost token that encloses it. |
| JsmnResume.Resumable | lsp_shiloh/common/cardreader/src/jsmn.c:66-70 | A call that ran out of tokens, made again with a larger array, ends as one call with the larger array would have. |
| JsmnResume.SpareTokensDoNotMatter | lsp_shiloh/common/cardreader/src/jsmn.c:134-244 | Tokens beyond those needed change nothing but themselves. |
| JsmnResume.RunIsPushdown | lsp_shiloh/common/cardreader/src/jsmn.c:134-244 | With room for all tokens the parser accepts what a pushdown machine on bracket kinds accepts and uses as many tokens; with less it answers NOMEM. |
| CmdOutput.RotateR | lsp_shiloh/common/cmd/src/cmd_wrapper.c:360-383 | The block-swap rotation with its changes of direction rotates right by s, for every length and shift, and terminates. |
| CmdOutput.Flip | lsp_shiloh/common/cmd/src/cmd_wrapper.c:365-366 | Rotating right by s is rotating left by the rest. |
| CmdOutput.Ring.StrOut | lsp_shiloh/common/cmd/src/cmd_wrapper.c:345-357 | The ring keeps the last characters written, up to its length. |
| CmdOutput.Wrapper.OutCh | lsp_shiloh/common/cmd/src/cmd_wrapper.c:93-109 | The staging buffer passes on all characters in order, flushing when full or at a NUL. |
| CmdOutput.Run | lsp_shiloh/common/cmd/src/cmd_wrapper.c:386-396 | The caller's buffer holds the last min(len, n + 1) characters of the output followed by NUL, in order, and the rest of it is untouched. |
| CmdHandshake.NextKeeps | lsp_shiloh/common/cmd/src/cmd_wrapper.c:243-332 | Every step of callers, delete and worker keeps the handshake invariant. |
| CmdHandshake.HandshakeIsSafe | lsp_shiloh/common/cmd/src/cmd_wrapper.c:243-332 | Under every interleaving one caller at most has the wrapper, the worker runs the owner's next command with the owner's handler, and the log of the worker is cut into the results of the returned calls, one stretch each, then those the owner has read, then at most one not yet read; while the wrapper is valid a call that failed has run a command. |
| CmdHandshake.LogTellsCodes | lsp_shiloh/common/cmd/src/cmd_wrapper.c:243-274 | The log tells what the commands really returned, in the order in which they ended. |
| CmdHandshake.TakesIt | lsp_shiloh/common/cmd/src/cmd_wrapper.c:279-332 | Who may take the wrapper has it after one step. |
| CmdHandshake.FreeIsTaken | lsp_shiloh/common/cmd/src/cmd_wrapper.c:310-332 | A wrapper that nobody has belongs to a call or a delete two steps after it came. |
| CmdHandshake.CallEnds | lsp_shiloh/common/cmd/src/cmd_wrapper.c:243-332 | Whatever others do: once the owner of a call with n commands and the worker have together taken 10n + 11 steps, the call has returned, with all its commands run or with the first one that failed. |
| CmdHandshake.DeleteEnds | lsp_shiloh/common/cmd/src/cmd_wrapper.c:503-530 | A delete that has the wrapper ends after at most ten steps of itself and the worker, and then the worker has left. |
| CmdHandshake.InvalidTurnsAway | lsp_shiloh/common/cmd/src/cmd_wrapper.c:279-332 | Once the wrapper is invalid nobody begins to wait for it: every call fails at once with nothing run. |
| CmdHandshake.NothingRunsAfterDelete | lsp_shiloh/common/cmd/src/cmd_wrapper.c:503-516 | Once a delete has the wrapper no command starts or ends, whatever happens next. |
| CmdHandshake.NoDeadlock | lsp_shiloh/common/cmd/src/cmd_wrapper.c:279-332 | Until a delete has finished, the owner or the worker can go on, and without an owner every waiter can. |
| DbgRing.AcceptedAre | lsp_shiloh/common/debug/src/dbg_outbuf.c:188-194 | Backspace, tab and line feed are the only control characters let in; of the others all up to 0x7f. |
| DbgRing.ExpansionIsPaired | lsp_shiloh/common/debug/src/dbg_outbuf.c:180-191 | In what goes out each line feed stands right behind a carriage return and each carriage return right before a line feed. |
| DbgRing.ExpansionIsReadable | lsp_shiloh/common/debug/src/dbg_outbuf.c:180-191 | What goes out can be read back: dropping carriage returns undoes the expansion of everything that is let in. |
| DbgRing.TakenFits | lsp_shiloh/common/debug/src/dbg_outbuf.c:428-447 | The drain loop takes at least one character when there is one, stops at the end of the ring or near the end of its buffer, and never overruns it. |
| DbgRing.OutBuffer.AddChar | lsp_shiloh/common/debug/src/dbg_outbuf.c:180-218 | An accepted character is added to the ring if there is room, else the overflow is noted; others change nothing. |
| DbgRing.OutBuffer.Drain | lsp_shiloh/common/debug/src/dbg_outbuf.c:421-453 | The buffer gets the expansion of the oldest characters, the ring keeps the rest, and an overflow is reported once the ring is empty. |
| DbgDrain.StepKeepsInv | lsp_shiloh/common/debug/src/dbg_outbuf.c:180-218 | Every critical section of every thread keeps order, completeness and a waker for work left behind. |
| DbgDrain.NothingIsLost | lsp_shiloh/common/debug/src/dbg_outbuf.c:404-486 | Over every interleaving the bytes sent, those in hand and the ring are the characters added, in order, each LF as CR LF. |
| DbgDrain.SentIsReadable | lsp_shiloh/common/debug/src/dbg_outbuf.c:404-486 | From the start: what was sent can be read back as a prefix of the characters added, its line feeds stand behind carriage returns and nowhere else, and a waiting output thread with work has DATA set or a producer about to set it. |
| DbgDrain.EveryScheduleSends | lsp_shiloh/common/debug/src/dbg_outbuf.c:404-486 | When no more characters come, every schedule whose steps do something comes to an end, and where it can go no further all that was added is sent, the ring is empty and an overflow noticed. |
| DbgDrain.EverythingIsSent | lsp_shiloh/common/debug/src/dbg_outbuf.c:404-486 | And there is such a schedule. |
| DbgDrain.LossIsNoticed | lsp_shiloh/common/debug/src/dbg_outbuf.c:203-206 | After a character was lost a notice has been sent wherever all threads have come to rest. |
| DbgDrain.NoticesAreLosses | lsp_shiloh/common/debug/src/dbg_outbuf.c:404-486 | There are never more notices than characters lost. |
| DbgDrain.NodataMeans | lsp_shiloh/common/debug/src/dbg_outbuf.c:111-130 | Over every interleaving: when NODATA is seen, exactly the characters added before the drain before its last setting are sent, so all is sent if and only if none was let in since. |
| DbgDrain.SyncWorksExactly | lsp_shiloh/common/debug/src/dbg_outbuf.c:111-130 | Waiting for NODATA after adding a character is right under every continuation if and only if the output thread was not about to set it when the character was added. |
| DbgDrain.SyncCanMiss | lsp_shiloh/common/debug/src/dbg_outbuf.c:111-121 | Seeing NODATA does not mean that all is sent: a run that ends with the flag set and a character in the ring. |
| DelayTable.TranspiredExactly | lsp_shiloh/common/delay/src/delay_mgr.c:569-580 | The elapsed ticks are right if and only if the counter has not wrapped; after a wrap one tick is missing. |
| DelayTable.WaitIsLeast | lsp_shiloh/common/delay/src/delay_mgr.c:608-618 | The wait is the least remaining delay, or forever. |
| DelayTable.FindIs | lsp_shiloh/common/delay/src/delay_mgr.c:519-522 | The subscription found is the first with that module and parameter. |
| DelayTable.Table.UpdateTickCounts | lsp_shiloh/common/delay/src/delay_mgr.c:569-602 | Every subscription is aged by the elapsed ticks, down to zero. |
| DelayTable.Table.UpdateWait | lsp_shiloh/common/delay/src/delay_mgr.c:608-625 | The wait is worked out from the table. |
| DelayTable.Table.Notify | lsp_shiloh/common/delay/src/delay_mgr.c:296-323 | Notices go to exactly the subscriptions at zero, in order; failed and repeating ones start again. |
| DelayTable.Table.Compact | lsp_shiloh/common/delay/src/delay_mgr.c:325-349 | Deleting in place by shifting, with the index stepped back, removes exactly the entries at zero and keeps the order. |
| DelayTable.Table.OnTimeout | lsp_shiloh/common/delay/src/delay_mgr.c:289-356 | A timeout ages, notifies, compacts and sets the wait. |
| DelayTable.Table.Register | lsp_shiloh/common/delay/src/delay_mgr.c:419-483 | A registration ages the table first and adds the new entry at its end, or is refused when the table is full. |
| DelayTable.Table.Unregister | lsp_shiloh/common/delay/src/delay_mgr.c:504-561 | The first matching entry is removed and the later ones move down. |
| DelayRuns.TimeoutIsTableStep | lsp_shiloh/common/delay/src/delay_mgr.c:286-356 | The tracked run and the table agree at a timeout, notices included. |
| DelayRuns.MessageIsTableStep | lsp_shiloh/common/delay/src/delay_mgr.c:375-387 | And at any other message, which ages it. |
| DelayRuns.RegisterIsTableStep | lsp_shiloh/common/delay/src/delay_mgr.c:419-483 | And at a registration, refused or not. |
| DelayRuns.UnregisterIsTableStep | lsp_shiloh/common/delay/src/delay_mgr.c:504-561 | And at an unregistration. |
| DelayPromises.NextKeeps | lsp_shiloh/common/delay/src/delay_mgr.c:260-625 | Every event keeps the promises. |
| DelayPromises.EveryRunKeepsItsPromises | lsp_shiloh/common/delay/src/delay_mgr.c:260-625 | Over every run each registration is in the table, has fired or was unregistered, the table is in registration order, and the counts of notices are as promised. |
| DelayPromises.WhatTheLogSays | lsp_shiloh/common/delay/src/delay_mgr.c:296-323 | No notice is sent before it is due; a one-shot that left by firing was told successfully exactly once, one still in the table never. |
| DelayPromises.TimeoutTellsTheDue | lsp_shiloh/common/delay/src/delay_mgr.c:286-323 | Among the notices a timeout sends there is one to a subscription if and only if it is due by then, and it is the right one and the only one. |
| DelayPromises.NextTimeoutTells | lsp_shiloh/common/delay/src/delay_mgr.c:286-483 | After any messages, registrations and unregistrations the next timeout tells a subscription that is due by then, unless it was unregistered. |
| DelayPromises.NoWaitForTheDue | lsp_shiloh/common/delay/src/delay_mgr.c:608-625 | The wait is zero if and only if somebody is due. |
| LogFlags.FoundExactly | lsp_shiloh/common/debug/src/logger.c:603-655 | An entry is found by its own text if and only if that is not the beginning of an earlier entry. |
| LogFlags.FindsFirst | lsp_shiloh/common/debug/src/logger.c:603-655 | A name stands for the first entry that it is the beginning of. |
| LogFlags.MatchesBeginnings | lsp_shiloh/common/debug/src/logger.c:603-655 | Capital and small letters are the same. |
| LogFlags.OffExactly | lsp_shiloh/common/debug/src/logger.c:603-618 | Whatever begins with off, in small letters, is off, and nothing else. |
| LogFlags.EmptyMaskSays | lsp_shiloh/common/debug/src/logger.c:457-484 | With an empty mask nothing is on from the level up, and below all is as before. |
| LogFlags.Set1Says | lsp_shiloh/common/debug/src/logger.c:780-800 | After logger_set_1 every submodule is on exactly at the levels up to the one asked for, none after off. |
| LogFlags.Set2Says | lsp_shiloh/common/debug/src/logger.c:752-778 | After logger_set_2 this is so for the submodules of the module named, raised or lowered, and the other modules are as before. |
| LogFlags.Set3Says | lsp_shiloh/common/debug/src/logger.c:709-750 | After logger_set_3 this is so for the one submodule named, and all others are as before. |
| LogFlags.OrderDoesNotMatter | lsp_shiloh/common/debug/src/logger.c:709-778 | When one of the two arguments names a level, their order does not matter; when neither does, or no module is named, nothing changes. |
| LogFlags.Logger.ClearModule | lsp_shiloh/common/debug/src/logger.c:428-439 | All levels of one module are cleared. |
| LogFlags.Logger.EnableMask | lsp_shiloh/common/debug/src/logger.c:441-455 | The mask is on up to the level and off above, for one module. |
| LogFlags.Logger.EnableLevel | lsp_shiloh/common/debug/src/logger.c:457-484 | The same for some submodules; an empty mask clears the level and all above. |
| LogFlags.Logger.Set1 | lsp_shiloh/common/debug/src/logger.c:780-800 | One level for all modules. |
| LogFlags.Logger.Set2 | lsp_shiloh/common/debug/src/logger.c:752-778 | One level for one module, with the arguments in either order. |
| LogFlags.Logger.Set3 | lsp_shiloh/common/debug/src/logger.c:709-750 | One level for one submodule, with the arguments in either order. |
| LogDump.Set1KeepsClosed | lsp_shiloh/common/debug/src/logger.c:780-800 | A submodule that is on at a level stays on at all lower levels under logger_set_1 ... |
| LogDump.Set2KeepsClosed | lsp_shiloh/common/debug/src/logger.c:752-778 | ... under logger_set_2 ... |
| LogDump.Set3KeepsClosed | lsp_shiloh/common/debug/src/logger.c:709-750 | ... and under logger_set_3. |
| LogDump.Dump | lsp_shiloh/common/debug/src/logger.c:657-707 | The nested loops print the lines of the specification, whole modules first. |
| LogReplay.HeadersReplayed | lsp_shiloh/common/debug/src/logger.c:657-680 | Running the first part brings every named module that is off, or on for all submodules at some level, to that level, whatever it was. |
| LogReplay.DetailsReplayed | lsp_shiloh/common/debug/src/logger.c:681-707 | Running the second part brings each named submodule of a module to its own height. |
| LogReplay.BadIsLost | lsp_shiloh/common/debug/src/logger.c:603-655 | Of the partly enabled submodules that have no name, or one that finds another, the last is reached by no line at all. |
| LogReplay.DumpRestores | lsp_shiloh/common/debug/src/logger.c:603-778 | From all-clear flags, and from others where the dump has lines for the whole modules, it restores a named module if and only if all its partly enabled submodules have names and no such name is the beginning of an earlier one. |
| LogNames.ModuleFound | lsp_shiloh/common/debug/src/logger.c:486-515 | Every module of the table is found by its own name. |
| LogNames.TableIsFindable | lsp_shiloh/common/debug/src/logger.c:486-515 | So the table meets what the replay asks of it. |
| CmdSort.LessExactly | lsp_shiloh/common/cmd/src/cmd_cmd.c:290-302 | The order of names is that of the first place where they differ, a name before its continuations. |
| CmdSort.FindNext | lsp_shiloh/common/cmd/src/cmd_cmd.c:290-302 | The command with the least name above the reference, or none. |
| CmdSort.Sort | lsp_shiloh/common/cmd/src/cmd_cmd.c:305-318 | The sort chain visits every top-level command exactly once, in strictly ascending order. |
| CmdTree.SplitOfJoin | lsp_shiloh/common/cmd/src/cmd_cmd.c:85-123 | Splitting joined names at spaces gives the names back. |
| CmdTree.JoinOfSplit | lsp_shiloh/common/cmd/src/cmd_cmd.c:85-123 | Joining what was split gives the path back. |
| CmdTree.SplitPath | lsp_shiloh/common/cmd/src/cmd_cmd.c:85-123 | The counting and cutting loops yield the names of the path. |
| CmdTree.FindCmd | lsp_shiloh/common/cmd/src/cmd_cmd.c:59-70 | The loop walks down the tree by the names. |
| CmdTree.LastNameOff | lsp_shiloh/common/cmd/src/cmd_cmd.c:226-236 | Cutting at the last space takes the last name off the path. |
| CmdTree.Registry.RegisterCmd | lsp_shiloh/common/cmd/src/cmd_cmd.c:188-212 | A new top-level command goes to the end, unless its name is bad or taken. |
| CmdTree.Registry.RegisterSub | lsp_shiloh/common/cmd/src/cmd_cmd.c:166-185 | A new subcommand goes to the end below its parent, unless the parent is missing or has a procedure, or the name is bad or taken. |
| CmdTree.Registry.Register | lsp_shiloh/common/cmd/src/cmd_cmd.c:215-240 | A path is registered exactly when its parent accepts its last name, and the tree changes only there. |
| CmdTree.RegisteredIsFound | lsp_shiloh/common/cmd/src/cmd_cmd.c:133-240 | After a registration the path leads to the new command, with the flag given, and every other path leads where it led before. |
| CmdTree.TreeIsBook | lsp_shiloh/common/cmd/src/cmd_cmd.c:133-240 | Whatever is registered in whatever order, the tree is a book of paths: a registration succeeds exactly when its path is new, its last name valid and the rest of it a registered command without a procedure, and every path leads to the node that its own registration made. |
| CmdTree.RegisteredStaysTidy | lsp_shiloh/common/cmd/src/cmd_cmd.c:133-163 | Sibling names stay distinct throughout the tree. |

## Left out

- The 270 degree rotation and the unaligned or leftover paths of the 90 degree rotation: their result depends on padding units and byte order. `NupQuarterTurn.Rotate90` asks for whole words in both directions, as the caller's padding provides.
- NupQuarterTurn.Rotate90: asks for destination strips of one height of at least 32 / bpp lines; link_graphics_renderer allocates strips of min(100, height) lines, which meets it for whole words.
- NupHalfTurn.Rotate180: an odd middle row alone in its strip is excluded; `NupHalfTurn.AloneUndoes` says what the walk does then, up to the point where it steps off the list of strips.
- NupRender.Render: one plane with the operation OR on planar data; the AND and XOR operations, colour interleaving and packed formats have the same loops. Objects are taken as already rotated; the rotation that link_graphics_renderer calls is the subject of its own modules.
- NupRender.CopyObject: the object must have the rows it declares, so the early exit at the end of the source data is not reached; the residue prepared for the disabled write of the last byte is not modelled.
- NupCells.RenderPages: the images arrive with the rotation of the layout already done, one plane, on strips apart from those of the page.
- NupLayout.CellsApart: no padding and images that fit; the rotated two-up layout shifts images by a remainder of their height and is not claimed. For image counts the code does not know, the rotation it leaves unchanged is given as none.
- NupPages.JobBalances: ID n-up and cancelled jobs, and the sending of planes and sheets, are not part of this model.
- TimerRuns.TimersKeepTheirPromises: asks for at most one outstanding cancel message per record and for a timer that is still queued when its cancel is asked for, so not for a one-shot that has already fired (`TimerRuns.AskIsSafeExactly` says that this guard is exact); and that the expiry message is handled when the hardware has counted down the head's delay, as the source assumes. Milliseconds are ticks throughout.
- TimerRuns.NextGood: the same guards on the events of a run.
- TimerDelay.TimerService.HandleTimerCancel: for a record that is no longer queued the source also adds its delay to the record behind it on the list it is on; free records' delays mean nothing and are not part of the abstract state, and the links of the free list are a sequence.
- CmdHandshake.HandshakeIsSafe: pthread priorities and failing semaphore calls are not part of this model; the command interpreter is an arbitrary return code and the output an arbitrary stream of characters. The text of a pipeline is already cut into its non-empty commands; a single call without a command, refused at once, is not an event.
- DbgDrain.NothingIsLost: shutdown, replay of the driver buffer, telnet and the list of watchers are not part of this model; sending is one step.
- DelayPromises.EveryRunKeepsItsPromises: asks for at least one tick and no wrap of the tick counter during the run; a full table refuses, where a debug build stops.
- LogFlags.Logger.Set3: the table lookup with the index of an unknown module, whose result the source does not use, is skipped. The three extra levels of one product variant are not modelled.
- CmdTree.Registry.Register: the tree of subcommands is a value whose nodes carry an identity, not linked records; out of memory and the help texts are not modelled.
- The message queues, mutexes around single critical sections, memory exhaustion, printf formatting and the hardware timer registers are left out or appear as parameters.
- Getters, debug printing, the text reflow of the help command and the in-memory string log would only add easy members.
