# Verification of the PicoCalc drivers and boot script

A Dafny model of the parts of the PicoCalc board support layer that keep state, with proofs of
what they are for. `dafny verify dfyconfig.toml` checks everything.

**The display.** `Ili9488.dfy` is the framebuffer driver: video memory, the dirty line range, the
transmit buffer, and the loops that turn a line range into bytes on the SPI bus, for every width,
height and buffer size. `Panel.dfy` is a panel that obeys the MIPI Alliance Display Command Set
(set_column_address, set_page_address, write_memory_start), and `DisplayMeaning.dfy` proves what
the driver's bytes do to it. `DirtyRange.dfy` is the arithmetic of the dirty range and its exact
hull. `PixelCode.dfy` and `Dither.dfy` are the pixel formats, the batches, and the ordered dither.
`FlushProtocol.dfy` is the same flush as a protocol: callers that draw first and mark later, page
faults, and a worker that takes the range, reads pixels part by part into a bounded batch and
sends it, all interleaved at single steps. Its invariant gives the two properties that the design
is after: no update is lost, and no mark is stranded. `FlushModes.dfy` reads it in pixel terms, and
`FlushWire.dfy` and `FlushPairs.dfy` carry it down to the bytes on the wire and what takes them, and
`FlushOdd.dfy` tells at which widths whole pairs are enough. `FlushDriver.dfy` ties the protocol to
the driver: undisturbed, it sends what the driver sends. `BitPanel.dfy` is the reader of the 3-bit
stream.

**The keyboard.** `Keyboard.dfy` is the driver's context with its FIFO loop, event handler and
poll, proved against `KeyEvents.dfy` and `Polling.dfy`. `KeyEvents.dfy` proves the shadow flags of
second-function keys against the keys that the host sees down, `KeyHistory.dfy` tells mouse mode,
arrow bits and mouse buttons from the history of events alone, and `PollRuns.dfy` proves that
polling is a fold over the queue and sums the pointer's motion. `KeyCodes.dfy` is the scancode
table; its keycodes are the numbers of Linux's input-event-codes.h, which is not part of this
model.

**The boot script.** `BootChooser.dfy` is the A/B slot choice run once a boot, and what repeated
boots and the updater's writes make of it.

**Sound.** `SndPwm.dfy` and `SndSoftPwm.dfy` are the two PCM drivers with their timers,
`PcmRing.dfy` the counters that they share.

Where the code and its documentation differ, the model follows the code:

- RAUC's mark-good writes a counter of 3, but the script reads 3 as 1, so a confirmation is good
  for one boot, not three (`BootChooser.MarkGoodBuysOneBoot`).
- The "no valid slot" branch announces a reset of the counters but resets the board before it
  saves them, so it recurs on every boot (`BootChooser.BootsIff`).
- The dither writer starts its pixel index from a byte offset, so the phase of the pattern depends
  on the first line of the window (`Dither.ShownPhase`, `Dither.PartialRepaintAgreesIff`). Its
  16x16 table is indexed modulo 8; the model holds that corner.
- Blue is bit 3 of a pixel's triple, not bit 0. The packed bits are disjoint
  (`PixelCode.PackedBits`); that they are the panel's 3-bit format is not claimed.
- An odd number of pixels in a 3-bit mode, which an odd width can give, sends all but the last one
  (`DisplayMeaning.ThreeBitStreamMeaning`) and reads one pixel too many
  (`PixelCode.ReadsStayInRequestIff`), past the end of video memory if the request ends there
  (`PixelCode.ReadsLeaveMemoryIff`). The model reads an arbitrary value there; it is never sent. So
  the 3-bit modes keep the panel up to date exactly at even widths
  (`FlushOdd.ThreeBitAlwaysSettlesIff`).
- F4, F5, F9 and F10 in mouse mode report page keys that no flag shadows
  (`KeyEvents.FlagEqualsHostIff`, `KeyEvents.PageUpOutOfStep`).
- A sample of 0 or 255 stops the software PWM stream (`SndSoftPwm.KeepsPaceIff`), because only the
  second timer moves it on. A stop between a rise and its fall leaves the pin high, and a
  start whose first sample is 0 does not lower it (`SndSoftPwm.StopLeavesPin`).

A step of the model is one access of the source: in `FlushProtocol` a read of one byte or one
channel of a pixel, a write of one pixel by a caller, a mark, a schedule. A draw may write any
pixel of the lines that it is going to mark, any number of times. Thread and page numbers are
unbounded.

## Model

| member | source | states |
|---|---|---|
| `FlushProtocol.NoLostUpdate` | meta-picocalc-bsp-rockchip/recipes-kernel/linux/files/picocalc/picocalc_lcd/ili9488_fb.c:798-858 | In every state that any interleaving of draws, marks, page touches, mapped writes, schedules and worker steps reaches, a pixel that is not marked, not on a touched page, not under a draw that has yet to mark, not in the uncopied rest of the running flush, and not excused (on a line whose mark was cut off above the screen, or left out of an odd batch, and not taken by a flush since), has its unsent copy (else its panel cell) equal to the encoding of video memory. |
| `FlushProtocol.NoStrandedMark` | meta-picocalc-bsp-rockchip/recipes-kernel/linux/files/picocalc/picocalc_lcd/ili9488_fb.c:810-836 | In every reachable state a pixel whose panel cell is out of date has the worker scheduled or running, or a caller on its way to the schedule call, unless it is excused. |
| `FlushProtocol.SettlesFresh` | meta-picocalc-bsp-rockchip/recipes-kernel/linux/files/picocalc/picocalc_lcd/ili9488_fb.c:821-858 | From every reachable state with no caller under way, the worker alone stops, and then every panel cell equals the encoding of video memory, but for excused pixels. |
| `FlushProtocol.SettlesWhole` | meta-picocalc-bsp-rockchip/recipes-kernel/linux/files/picocalc/picocalc_lcd/ili9488_fb.c:821-858 | The same of the whole panel, in a mode that sends single pixels or at an even width, for every run in which no rectangle starts above the screen (below -1) and ends on it. |
| `FlushProtocol.DropKeeps` | meta-picocalc-bsp-rockchip/recipes-kernel/linux/files/picocalc/picocalc_lcd/ili9488_fb.c:600-604 | The last pixel of an odd batch in a 3-bit mode does not go out: the panel stays as it was, and the pixel is recorded as left out. |
| `FlushProtocol.LeftOutIsLast` | meta-picocalc-bsp-rockchip/recipes-kernel/linux/files/picocalc/picocalc_lcd/ili9488_fb.c:545-604 | In every reachable state a pixel that was left out is the last of a line. |
| `FlushProtocol.RunLeavesNothingOut` | meta-picocalc-bsp-rockchip/recipes-kernel/linux/files/picocalc/picocalc_lcd/ili9488_fb.c:545-604 | In a mode that sends single pixels, or at an even width, no run leaves a pixel out. |
| `FlushOdd.LastPixelStays` | meta-picocalc-bsp-rockchip/recipes-kernel/linux/files/picocalc/picocalc_lcd/ili9488_fb.c:545-604 | At every odd width, in a mode that sends whole pairs, drawing on the first line once and flushing it leaves the line's last pixel on the panel as it was. |
| `FlushOdd.ThreeBitAlwaysSettlesIff` | meta-picocalc-bsp-rockchip/recipes-kernel/linux/files/picocalc/picocalc_lcd/ili9488_fb.c:545-696 | Both 3-bit modes bring the whole panel up to date in every run without a cut-off rectangle exactly at even widths. |
| `FlushOdd.SixteenBitAlwaysSettles` | meta-picocalc-bsp-rockchip/recipes-kernel/linux/files/picocalc/picocalc_lcd/ili9488_fb.c:698-745 | 16-bit mode does so at every width. |
| `FlushProtocol.CutLinesComeFromMarks` | meta-picocalc-bsp-rockchip/recipes-kernel/linux/files/picocalc/picocalc_lcd/ili9488_fb.c:805-815 | A line is cut off only by a drawing call whose rectangle starts above the screen and ends on it. |
| `FlushProtocol.QuietMeansFresh` | meta-picocalc-bsp-rockchip/recipes-kernel/linux/files/picocalc/picocalc_lcd/ili9488_fb.c:798-858 | Under the invariant, with no work pending and no caller under way, the whole panel shows video memory, but for excused pixels. |
| `FlushProtocol.StepKeeps` | meta-picocalc-bsp-rockchip/recipes-kernel/linux/files/picocalc/picocalc_lcd/ili9488_fb.c:798-891 | Each step of a draw, a mark, a page touch, a mapped write, a schedule or the worker keeps the protocol's invariant. |
| `FlushProtocol.StartKeeps` | meta-picocalc-bsp-rockchip/recipes-kernel/linux/files/picocalc/picocalc_lcd/ili9488_fb.c:829-857 | Taking the dirty range, resetting it and widening it by the touched pages loses no pixel: each one that was owed a copy is in the range that the new flush sends. |
| `FlushProtocol.CopyKeeps` | meta-picocalc-bsp-rockchip/recipes-kernel/linux/files/picocalc/picocalc_lcd/ili9488_fb.c:721-742 | Copying a pixel into the batch keeps the invariant even when video memory changed between the reads of its parts, because such a change leaves the pixel pending. |
| `FlushProtocol.SendKeeps` | meta-picocalc-bsp-rockchip/recipes-kernel/linux/files/picocalc/picocalc_lcd/ili9488_fb.c:737-741 | Sending a pixel of the batch keeps the invariant, changes no other panel cell, and leaves what each pixel shows or will show from the batch as it was. |
| `FlushProtocol.WorkerNeverStuck` | meta-picocalc-bsp-rockchip/recipes-kernel/linux/files/picocalc/picocalc_lcd/ili9488_fb.c:721-742 | The worker's next step is within video memory, panel and batch whenever it has work. |
| `FlushProtocol.StepWorks` | meta-picocalc-bsp-rockchip/recipes-kernel/linux/files/picocalc/picocalc_lcd/ili9488_fb.c:721-743 | Every worker step lowers the work left, so a flush that is not rescheduled ends. |
| `FlushProtocol.PixelOfTouchedPageIsOwed` | meta-picocalc-bsp-rockchip/recipes-kernel/linux/files/picocalc/picocalc_lcd/ili9488_fb.c:838-852 | Every pixel of a touched page lies on a line that the widened range still owes. |
| `FlushModes.SixteenBitSettles` | meta-picocalc-bsp-rockchip/recipes-kernel/linux/files/picocalc/picocalc_lcd/ili9488_fb.c:721-743 | In 16-bit mode the settled panel holds the two bytes of each pixel of video memory that is not excused, after every run. |
| `FlushModes.PlainSettles` | meta-picocalc-bsp-rockchip/recipes-kernel/linux/files/picocalc/picocalc_lcd/ili9488_fb.c:645-687 | In plain 3-bit mode each settled pixel that is not excused is the three threshold decisions on its value. |
| `FlushModes.DitheredSettles` | meta-picocalc-bsp-rockchip/recipes-kernel/linux/files/picocalc/picocalc_lcd/ili9488_fb.c:552-598 | In dithered mode each settled pixel that is not excused is the table's decision on its value, in the phase of the flush that sent it. |
| `FlushWire.WireGivesCells` | meta-picocalc-bsp-rockchip/recipes-kernel/linux/files/picocalc/picocalc_lcd/ili9488_fb.c:721-743 | A panel that obeys the command set, fed in 16-bit mode with the window commands and the data bytes of every flush of any run, each byte read while callers draw, holds the protocol's cells after every step. |
| `FlushPairs.BytesGiveCells` | meta-picocalc-bsp-rockchip/recipes-kernel/linux/files/picocalc/picocalc_lcd/ili9488_fb.c:547-604 | In the 3-bit modes a reader that unpacks the bytes of every flush of any run, two pixels each from the window's first one on, holds the protocol's cells, but for the first pixel of a pair under way. |
| `FlushPairs.BytesShowVideoMemory` | meta-picocalc-bsp-rockchip/recipes-kernel/linux/files/picocalc/picocalc_lcd/ili9488_fb.c:547-604 | So after every run that leaves nothing under way it holds the three decisions on each pixel's value in video memory, but for excused pixels. |
| `FlushWire.WireShowsVideoMemory` | meta-picocalc-bsp-rockchip/recipes-kernel/linux/files/picocalc/picocalc_lcd/ili9488_fb.c:698-858 | So after every run that leaves nothing under way the panel shows video memory at each pixel whose line was not cut off, by the bytes on the wire alone. |
| `FlushDriver.UndisturbedFlushIsDriver` | meta-picocalc-bsp-rockchip/recipes-kernel/linux/files/picocalc/picocalc_lcd/ili9488_fb.c:721-858 | A flush of the protocol that no caller disturbs sends in 16-bit mode exactly what the driver's deferred worker sends for the same dirty range, pages and video memory, and leaves the range clean. |
| `FlushDriver.UndisturbedPairsAreDriver` | meta-picocalc-bsp-rockchip/recipes-kernel/linux/files/picocalc/picocalc_lcd/ili9488_fb.c:547-858 | In the 3-bit modes it opens the driver's window and sends exactly the driver's bytes. |
| `DirtyRange.FlushedRangeIsHull` | meta-picocalc-bsp-rockchip/recipes-kernel/linux/files/picocalc/picocalc_lcd/ili9488_fb.c:805-857 | After a reset and any on-screen marks and touched pages, the range for `update_display` is the smallest interval that holds every marked line and every on-screen line with a byte of a touched page, or the clean marker if there is none. |
| `DirtyRange.MarksGiveHull` | meta-picocalc-bsp-rockchip/recipes-kernel/linux/files/picocalc/picocalc_lcd/ili9488_fb.c:805-816 | The same for marks alone. |
| `DirtyRange.PageLinesAreInterval` | meta-picocalc-bsp-rockchip/recipes-kernel/linux/files/picocalc/picocalc_lcd/ili9488_fb.c:840-847 | The on-screen lines that hold a byte of a page are exactly those between the lines of its first and its last byte. |
| `DirtyRange.ToSend` | meta-picocalc-bsp-rockchip/recipes-kernel/linux/files/picocalc/picocalc_lcd/ili9488_fb.c:763-773 | For every pair of 32-bit line numbers the range sent is on the screen, and is the request itself exactly when that is ordered and on the screen, the whole screen otherwise. |
| `DirtyRange.OrderedRequestsAreSent` | meta-picocalc-bsp-rockchip/recipes-kernel/linux/files/picocalc/picocalc_lcd/ili9488_fb.c:763-779 | No on-screen line of an ordered request is dropped. |
| `DirtyRange.NeverDroppedIff` | meta-picocalc-bsp-rockchip/recipes-kernel/linux/files/picocalc/picocalc_lcd/ili9488_fb.c:805-815 | Whatever the range held, a mark's on-screen lines are sent by the next flush exactly unless the rectangle starts above the screen (below -1) and ends on it. |
| `Ili9488Driver.Ili9488.constructor` | meta-picocalc-bsp-rockchip/recipes-kernel/linux/files/picocalc/picocalc_lcd/ili9488_fb.c:1142-1148 | The buffers as probed: three bytes of transmit buffer a pixel, so that one batch holds the screen, at every size whose int products of 16 bits a pixel do not overflow. |
| `Ili9488Driver.Ili9488.WriteReg` | meta-picocalc-bsp-rockchip/recipes-kernel/linux/files/picocalc/picocalc_lcd/ili9488_fb.c:121-146 | The command goes out with the data pin low, its parameters, if any, with the pin high. |
| `Ili9488Driver.Ili9488.SetAddrWin` | meta-picocalc-bsp-rockchip/recipes-kernel/linux/files/picocalc/picocalc_lcd/ili9488_fb.c:223-239 | Column address, page address and memory write with the window's corners, high byte first. |
| `Ili9488Driver.Ili9488.WriteVmem` | meta-picocalc-bsp-rockchip/recipes-kernel/linux/files/picocalc/picocalc_lcd/ili9488_fb.c:698-745 | For every transmit buffer of at least three bytes the batches together are the two bytes of each requested pixel, in order; no index leaves the buffer or the request. |
| `Ili9488Driver.Ili9488.WriteVmem3Bit` | meta-picocalc-bsp-rockchip/recipes-kernel/linux/files/picocalc/picocalc_lcd/ili9488_fb.c:519-696 | For a request and a transmit buffer of any size both 3-bit writers end, index nothing outside the buffer, send exactly the bytes that the batches hold, and read up to the stated pixel; with an even batch capacity, or one batch, they send the packed decisions of the request's whole pairs, in order. |
| `Ili9488Driver.Ili9488.PackPair` | meta-picocalc-bsp-rockchip/recipes-kernel/linux/files/picocalc/picocalc_lcd/ili9488_fb.c:560-594 | Six tests set six bits of one byte of the transmit buffer and change no other byte. |
| `Ili9488Driver.Ili9488.UpdateDisplay` | meta-picocalc-bsp-rockchip/recipes-kernel/linux/files/picocalc/picocalc_lcd/ili9488_fb.c:747-796 | What goes on the wire for any two line numbers, at every width and height: the window of the settled range and the bytes of its pixels, in the 3-bit modes of its whole pairs. |
| `Ili9488Driver.Ili9488.MkDirty` | meta-picocalc-bsp-rockchip/recipes-kernel/linux/files/picocalc/picocalc_lcd/ili9488_fb.c:798-819 | The marked range for any signed line and height, in the driver's mixed signed and unsigned arithmetic, and the worker scheduled. |
| `Ili9488Driver.Ili9488.DeferredIo` | meta-picocalc-bsp-rockchip/recipes-kernel/linux/files/picocalc/picocalc_lcd/ili9488_fb.c:821-858 | The range is taken, reset and widened page by page, and its lines are sent. |
| `Panel.WindowOpens` | meta-picocalc-bsp-rockchip/recipes-kernel/linux/files/picocalc/picocalc_lcd/ili9488_fb.c:223-239 | A panel of the MIPI Alliance Display Command Set opens the window modulo 65536 and stands at its first pixel, its memory untouched. |
| `Panel.WindowStreamPaints` | meta-picocalc-bsp-rockchip/recipes-kernel/linux/files/picocalc/picocalc_lcd/ili9488_fb.c:121-146 | Feeding a window's stream to any panel state sets exactly the window's pixels, in order, each to its value. |
| `DisplayMeaning.DisplayStreamMeaning` | meta-picocalc-bsp-rockchip/recipes-kernel/linux/files/picocalc/picocalc_lcd/ili9488_fb.c:698-796 | In 16-bit mode, for every size below 65536 and every request, the stream of `update_display` makes pixel (x, y) of the settled lines show video memory at y * width + x and changes no other pixel. |
| `DisplayMeaning.FlushOpensWindow` | meta-picocalc-bsp-rockchip/recipes-kernel/linux/files/picocalc/picocalc_lcd/ili9488_fb.c:775-796 | In every mode, after the stream of `update_display`, the panel's current command is write memory and its window registers are column 0 to width - 1 and the first to the last line that the request settles on. |
| `BitPanel.BitStreamMeaning` | meta-picocalc-bsp-rockchip/recipes-kernel/linux/files/picocalc/picocalc_lcd/ili9488_fb.c:519-796 | In the 3-bit modes, for every size below 65536 and every request, a reader that follows the window commands and unpacks each data byte to two pixels has after the stream of `update_display` the driver's decision for every pixel of the settled lines' whole pairs, and every other pixel as it was. |
| `DisplayMeaning.FlushShowsTouchedLines` | meta-picocalc-bsp-rockchip/recipes-kernel/linux/files/picocalc/picocalc_lcd/ili9488_fb.c:798-858 | After on-screen marks and touched pages, one flush makes every pixel of every touched line show video memory. |
| `DisplayMeaning.ThreeBitStreamMeaning` | meta-picocalc-bsp-rockchip/recipes-kernel/linux/files/picocalc/picocalc_lcd/ili9488_fb.c:519-696 | In the 3-bit modes the data bytes, read back pair by pair, are one bit triple a pixel of the lines in order, but for the last pixel of an odd number: the table's decision at [(first + y) mod 8][x mod 8], or the plain one. |
| `DisplayMeaning.AlignedRepaintSendsSameBytes` | meta-picocalc-bsp-rockchip/recipes-kernel/linux/files/picocalc/picocalc_lcd/ili9488_fb.c:528-605 | A dithered repaint from a line divisible by 8 sends the very bytes that a whole-frame repaint sends for those lines, at every width. |
| `PixelCode.UnpackUndoesPack` | meta-picocalc-bsp-rockchip/recipes-kernel/linux/files/picocalc/picocalc_lcd/ili9488_fb.c:530-594 | Every pixel's three decisions can be read back from the packed bytes. |
| `PixelCode.PackedBits` | meta-picocalc-bsp-rockchip/recipes-kernel/linux/files/picocalc/picocalc_lcd/ili9488_fb.c:530-594 | Red, green and blue of the left pixel are bits 5, 4 and 6 of the byte, those of the right one bits 2, 1 and 3; bits 7 and 0 are clear. |
| `PixelCode.LevelsMakePixel` | meta-picocalc-bsp-rockchip/recipes-kernel/linux/files/picocalc/picocalc_lcd/ili9488_fb.c:560-576 | The three levels are the five high, the six middle and the five low bits: red * 2048 + green * 32 + blue is the pixel. |
| `PixelCode.PlainLights` | meta-picocalc-bsp-rockchip/recipes-kernel/linux/files/picocalc/picocalc_lcd/ili9488_fb.c:650-666 | Plain mode makes of red r, green g and blue b the bits r >= 16, g >= 32 and b >= 16. |
| `PixelCode.DitherLights` | meta-picocalc-bsp-rockchip/recipes-kernel/linux/files/picocalc/picocalc_lcd/ili9488_fb.c:558-574 | Dithered mode makes of them, under a table entry thr, the bits r > (thr + 4) / 8, g > (thr + 2) / 4 and b > (thr + 4) / 8. |
| `PixelCode.PairBatches` | meta-picocalc-bsp-rockchip/recipes-kernel/linux/files/picocalc/picocalc_lcd/ili9488_fb.c:547-605 | Two consecutive batches of pairs are one batch of their sum. |
| `PixelCode.Rgb565Batches` | meta-picocalc-bsp-rockchip/recipes-kernel/linux/files/picocalc/picocalc_lcd/ili9488_fb.c:721-743 | Two consecutive 16-bit batches are one batch of their sum. |
| `PixelCode.EveryPixelSentIff` | meta-picocalc-bsp-rockchip/recipes-kernel/linux/files/picocalc/picocalc_lcd/ili9488_fb.c:545-605 | The bytes that the 3-bit writers' batches hold are one for every two pixels of the request exactly when the request is of whole pairs, and the batch capacity is even or one batch takes all. |
| `PixelCode.ReadsStayInRequestIff` | meta-picocalc-bsp-rockchip/recipes-kernel/linux/files/picocalc/picocalc_lcd/ili9488_fb.c:552-585 | The 3-bit writers read at most one pixel past the request, and none exactly when the last batch is of whole pairs. |
| `PixelCode.ReadsLeaveMemoryIff` | meta-picocalc-bsp-rockchip/recipes-kernel/linux/files/picocalc/picocalc_lcd/ili9488_fb.c:552-585 | They read past the end of video memory exactly when the last batch is odd and the request ends with video memory. |
| `Dither.ShownPhase` | meta-picocalc-bsp-rockchip/recipes-kernel/linux/files/picocalc/picocalc_lcd/ili9488_fb.c:528-557 | The byte offset used as a pixel index: pixel (x, y) of a window from line s meets table entry [(s + y) mod 8][x mod 8]. |
| `Dither.StreamPhase` | meta-picocalc-bsp-rockchip/recipes-kernel/linux/files/picocalc/picocalc_lcd/ili9488_fb.c:545-605 | The same of each decision of a window's whole stream, across all batches. |
| `Dither.PartialRepaintAgreesIff` | meta-picocalc-bsp-rockchip/recipes-kernel/linux/files/picocalc/picocalc_lcd/ili9488_fb.c:528-557 | A repaint from line s shows what a whole-frame repaint shows, for every picture, exactly when s is divisible by 8. |
| `Dither.FlatColourBrightness` | meta-picocalc-bsp-rockchip/recipes-kernel/linux/files/picocalc/picocalc_lcd/ili9488_fb.c:497-598 | A flat colour over 8k lines from any line, at any width divisible by 8, sets in the byte stream exactly g green bits for every 64 pixels, and 0, 2v - 1 (v up to 16) or 2v red or blue ones. |
| `DisplayMeaning.FlatWindowBrightness` | meta-picocalc-bsp-rockchip/recipes-kernel/linux/files/picocalc/picocalc_lcd/ili9488_fb.c:552-598 | The same count, in the bytes that a flush of such lines sends. |
| `Dither.TileOfTable` | meta-picocalc-bsp-rockchip/recipes-kernel/linux/files/picocalc/picocalc_lcd/ili9488_fb.c:497-517 | Of the 64 entries of the table corner in use, exactly that many are exceeded by each level. |
| `KeyCodes.OneScancodePerRow` | meta-picocalc-bsp-rockchip/recipes-kernel/linux/files/picocalc/picocalc_kbd/picocalc_kbd_code.h:15-172 | The keycode of each second-function row, but for the last, belongs to that row's scancode alone. |
| `KeyCodes.LettersFollowRows` | meta-picocalc-bsp-rockchip/recipes-kernel/linux/files/picocalc/picocalc_kbd/picocalc_kbd_code.h:23-48 | The letters have the keycodes from 16, 30 and 44 on along the three rows of the keyboard. |
| `KeyCodes.CasesAgree` | meta-picocalc-bsp-rockchip/recipes-kernel/linux/files/picocalc/picocalc_kbd/picocalc_kbd_code.h:23-75 | Both cases of a letter are the same key. |
| `KeyCodes.DigitsFollow` | meta-picocalc-bsp-rockchip/recipes-kernel/linux/files/picocalc/picocalc_kbd/picocalc_kbd_code.h:89-98 | The digits 1 to 9 and 0 have the keycodes from 2 on. |
| `KeyCodes.ShiftedDigitsFollow` | meta-picocalc-bsp-rockchip/recipes-kernel/linux/files/picocalc/picocalc_kbd/picocalc_kbd_code.h:100-109 | So have the characters that shift makes of them. |
| `KeyCodes.PunctuationPairs` | meta-picocalc-bsp-rockchip/recipes-kernel/linux/files/picocalc/picocalc_kbd/picocalc_kbd_code.h:132-164 | Both characters of each punctuation key are the same key. |
| `KeyCodes.FunctionKeysAndArrows` | meta-picocalc-bsp-rockchip/recipes-kernel/linux/files/picocalc/picocalc_kbd/picocalc_kbd_code.h:111-169 | F1 to F10 and the four arrows, by their keycodes. |
| `KeyEvents.FlagsEqualHost` | meta-picocalc-bsp-rockchip/recipes-kernel/linux/files/picocalc/picocalc_kbd/picocalc_kbd.c:287-304 | After every sequence of events the flag of F6 to F10, Pause, Home and End is set exactly when the host last saw the key down, with mouse mode on or off. |
| `KeyEvents.EventSyncsIff` | meta-picocalc-bsp-rockchip/recipes-kernel/linux/files/picocalc/picocalc_kbd/picocalc_kbd.c:256-479 | One event keeps any row in step exactly unless mouse mode is on after it, the event is one of the two keys that mode turns into the row's page key, and it reports the opposite of the flag. |
| `KeyEvents.EventSyncsExactly` | meta-picocalc-bsp-rockchip/recipes-kernel/linux/files/picocalc/picocalc_kbd/picocalc_kbd.c:256-479 | What one event makes of any row, in step or not: an event past the flag decides by the flag, the row's own press or release and the last shift's release with the flag set bring it in step, any other leaves it. |
| `KeyEvents.FlagEqualsHostIff` | meta-picocalc-bsp-rockchip/recipes-kernel/linux/files/picocalc/picocalc_kbd/picocalc_kbd.c:256-479 | For every row with a keycode, PageUp and PageDown included, after every run the flag is what the host last saw exactly if the last event past the flag agreed with it or the row was brought in step since. |
| `KeyEvents.AlwaysSyncedIff` | meta-picocalc-bsp-rockchip/recipes-kernel/linux/files/picocalc/picocalc_kbd/picocalc_kbd.c:370-379 | A row stays in step all through a run exactly if every event of the run that reports its key past its flag agrees with the flag. |
| `KeyEvents.MouseOffAlwaysSynced` | meta-picocalc-bsp-rockchip/recipes-kernel/linux/files/picocalc/picocalc_kbd/picocalc_kbd.c:307-383 | PageUp and PageDown stay in step in every run in which mouse mode was never on. |
| `KeyEvents.PageUpOutOfStep` | meta-picocalc-bsp-rockchip/recipes-kernel/linux/files/picocalc/picocalc_kbd/picocalc_kbd.c:370-374 | F9 pressed in mouse mode leaves PageUp down on the host with its flag clear. |
| `KeyEvents.ShiftReleaseFreesIff` | meta-picocalc-bsp-rockchip/recipes-kernel/linux/files/picocalc/picocalc_kbd/picocalc_kbd.c:292-304 | A shift release that leaves both shifts up leaves a key up on the host exactly when its flag was set or it was up already. |
| `KeyEvents.ShiftReleaseFreesKeys` | meta-picocalc-bsp-rockchip/recipes-kernel/linux/files/picocalc/picocalc_kbd/picocalc_kbd.c:292-304 | In every run, a shift release that leaves both shifts up leaves F6 to F10, Pause, Home and End up on the host. |
| `KeyEvents.LetGoFreesFlagged` | meta-picocalc-bsp-rockchip/recipes-kernel/linux/files/picocalc/picocalc_kbd/picocalc_kbd.c:295-302 | The loop over the table reports up exactly the rows whose flag is set, and clears them. |
| `KeyEvents.SecondKeysComeUnshifted` | meta-picocalc-bsp-rockchip/recipes-kernel/linux/files/picocalc/picocalc_kbd/picocalc_kbd.c:447-471 | In every run, when a press of F6 to F10, Pause, Home, End, PageUp or PageDown that mouse mode does not take is reported, the host has both shifts up before it. |
| `KeyEvents.MouseModePageKeys` | meta-picocalc-bsp-rockchip/recipes-kernel/linux/files/picocalc/picocalc_kbd/picocalc_kbd.c:370-379 | In mouse mode F4 and F9 report PageUp, F5 and F10 PageDown, down on a press and up on a hold or a release, and no flag changes. |
| `KeyEvents.EnterOrInsert` | meta-picocalc-bsp-rockchip/recipes-kernel/linux/files/picocalc/picocalc_kbd/picocalc_kbd.c:451-455 | Scancode 0xD1 reports Enter while a shift is down and Insert otherwise. |
| `KeyHistory.MouseModeIsParity` | meta-picocalc-bsp-rockchip/recipes-kernel/linux/files/picocalc/picocalc_kbd/picocalc_kbd.c:270-291 | The shift flags tell each shift's last event, and mouse mode is the parity of the shift presses that left both down. |
| `KeyHistory.ArrowBitsAreHeld` | meta-picocalc-bsp-rockchip/recipes-kernel/linux/files/picocalc/picocalc_kbd/picocalc_kbd.c:307-361 | Each arrow bit is decided by that arrow's last press or release seen in mouse mode. |
| `KeyHistory.ButtonsAreHeld` | meta-picocalc-bsp-rockchip/recipes-kernel/linux/files/picocalc/picocalc_kbd/picocalc_kbd.c:362-369 | The host sees a mouse button down exactly when its key's last event in mouse mode was a press. |
| `KeyHistory.OrdinaryKeysAreHeld` | meta-picocalc-bsp-rockchip/recipes-kernel/linux/files/picocalc/picocalc_kbd/picocalc_kbd.c:386-475 | The host sees an ordinary key down exactly when, of its presses and releases that mouse mode did not take, the last one was a press. |
| `KeyHistory.SecondKeysAreHeld` | meta-picocalc-bsp-rockchip/recipes-kernel/linux/files/picocalc/picocalc_kbd/picocalc_kbd.c:292-472 | The host sees F6 to F10, Pause, Home or End down exactly when the last of its presses and releases that mouse mode did not take was a press and the shifts did not go up since. |
| `KeyHistory.FlagsAreHeld` | meta-picocalc-bsp-rockchip/recipes-kernel/linux/files/picocalc/picocalc_kbd/picocalc_kbd.c:292-472 | The flags say the same, those of PageUp and PageDown too. |
| `KeyHistory.ShiftsAreShown` | meta-picocalc-bsp-rockchip/recipes-kernel/linux/files/picocalc/picocalc_kbd/picocalc_kbd.c:464-475 | The host sees a shift down exactly when its last press or release was a press and no second-function key was pressed since. |
| `Polling.ItemOfNibble` | meta-picocalc-bsp-rockchip/recipes-kernel/linux/files/picocalc/picocalc_kbd/picocalc_kbd.c:59-64 | An entry's state is the low four bits of its first byte, its scancode the second byte. |
| `Polling.FullBatch` | meta-picocalc-bsp-rockchip/recipes-kernel/linux/files/picocalc/picocalc_kbd/picocalc_kbd.c:216-236 | A poll handles 31 entries if that many are there. |
| `Polling.BatchSize` | meta-picocalc-bsp-rockchip/recipes-kernel/linux/files/picocalc/picocalc_kbd/picocalc_kbd.c:216-236 | A read loop transfers the leading entries that are not terminators, up to its limit. |
| `PollRuns.PollingIsFold` | meta-picocalc-bsp-rockchip/recipes-kernel/linux/files/picocalc/picocalc_kbd/picocalc_kbd.c:201-254 | Whatever the polls, the failed reads and the arrivals, flags, modes and all reports are those of handling the entries taken so far in order, each once, and the rest is still queued. |
| `PollRuns.DrainingIsFold` | meta-picocalc-bsp-rockchip/recipes-kernel/linux/files/picocalc/picocalc_kbd/picocalc_kbd.c:481-493 | A queue is drained by as many polls that read at least once, whatever polls fail in between, with the result of handling the whole queue. |
| `PollRuns.PolledFlagsEqualHost` | meta-picocalc-bsp-rockchip/recipes-kernel/linux/files/picocalc/picocalc_kbd/picocalc_kbd.c:457-472 | The flags equal the host's keys after every run of polls. |
| `PollRuns.PollReportsKey` | meta-picocalc-bsp-rockchip/recipes-kernel/linux/files/picocalc/picocalc_kbd/picocalc_kbd.c:481-493 | Outside mouse mode one poll of an ordinary key's press leaves the host seeing the key down, and of its release up. |
| `PollRuns.LastPressOfRun` | meta-picocalc-bsp-rockchip/recipes-kernel/linux/files/picocalc/picocalc_kbd/picocalc_kbd.c:313-409 | The time that the driver keeps is that of the last key press of the run, told from the history of events: an arrow that goes down or the left arrow's release in mouse mode, any other key of the table otherwise. |
| `PollRuns.StepOfRun` | meta-picocalc-bsp-rockchip/recipes-kernel/linux/files/picocalc/picocalc_kbd/picocalc_kbd.c:497-509 | The pointer's step is 1 up to 150 ms after the last key press of the run, 2 up to 450 ms, and 4 from then on. |
| `PollRuns.PointerTravels` | meta-picocalc-bsp-rockchip/recipes-kernel/linux/files/picocalc/picocalc_kbd/picocalc_kbd.c:495-527 | The pointer's displacement over any run is the sum, over polls that end in mouse mode, of step times (right - left, down - up) as the history of events tells them, the step being 1, 2 or 4. |
| `Keyboard.KbdCtx.ReadFifo` | meta-picocalc-bsp-rockchip/recipes-kernel/linux/files/picocalc/picocalc_kbd/picocalc_kbd.c:201-254 | The FIFO array and its count after the read loop, with a read that fails at any index, and how many entries left the queue. |
| `Keyboard.KbdCtx.LetGoOfSecondKeys` | meta-picocalc-bsp-rockchip/recipes-kernel/linux/files/picocalc/picocalc_kbd/picocalc_kbd.c:295-302 | The loop that lets go of the keys still marked as pressed. |
| `Keyboard.KbdCtx.MouseEvent` | meta-picocalc-bsp-rockchip/recipes-kernel/linux/files/picocalc/picocalc_kbd/picocalc_kbd.c:307-383 | Which scancodes mouse mode takes, and the whole state after each. |
| `Keyboard.KbdCtx.FindRow` | meta-picocalc-bsp-rockchip/recipes-kernel/linux/files/picocalc/picocalc_kbd/picocalc_kbd.c:457-471 | The search loop finds the row of a scancode. |
| `Keyboard.KbdCtx.KeyReportEvent` | meta-picocalc-bsp-rockchip/recipes-kernel/linux/files/picocalc/picocalc_kbd/picocalc_kbd.c:256-479 | The whole driver state after one event, the time of the last key press included. |
| `Keyboard.KbdCtx.Poll` | meta-picocalc-bsp-rockchip/recipes-kernel/linux/files/picocalc/picocalc_kbd/picocalc_kbd.c:481-539 | The whole driver state after one poll of any queue with any failing read and any clock. |
| `BootChooser.UBoot.RunScript` | meta-picocalc-bsp-rockchip/recipes-bsp/u-boot/files/boot.scr.sh.in:1-60 | The script's outcome, the environment it saves, and the partition it hands over (3 for slot A, 4 for slot B), from every saved environment. |
| `BootChooser.FallbackAfterTries` | meta-picocalc-bsp-rockchip/recipes-bsp/u-boot/files/boot.scr.sh.in:6-45 | From an order of both slots with counter n the first slot is booted exactly n times for n up to 2 (0 if negative), n - 2 times from 3, once if unset; every later boot is of the other slot. |
| `BootChooser.TriesLeft` | meta-picocalc-bsp-rockchip/recipes-bsp/u-boot/files/boot.scr.sh.in:21-45 | The saved counter is the measure: each boot of the first slot uses up one try. |
| `BootChooser.SingleOrderIsPermanent` | meta-picocalc-bsp-rockchip/recipes-bsp/u-boot/files/boot.scr.sh.in:13-20 | A single-slot order boots that slot for ever. |
| `BootChooser.FreshEnvironmentBootsA` | meta-picocalc-bsp-rockchip/recipes-bsp/u-boot/files/boot.scr.sh.in:1-5 | With no order saved slot A is booted, at the first boot and every later one, and order A is saved. |
| `BootChooser.EachOrderHasItsCounter` | meta-picocalc-bsp-rockchip/recipes-bsp/u-boot/files/boot.scr.sh.in:21-45 | With order A B the counter of A alone decides, with B A that of B. |
| `BootChooser.TriesTakeFromOwnCounter` | meta-picocalc-bsp-rockchip/recipes-bsp/u-boot/files/boot.scr.sh.in:24-36 | A try takes one from the tried slot's counter and leaves the other's. |
| `BootChooser.OtherCounterStays` | meta-picocalc-bsp-rockchip/recipes-bsp/u-boot/files/boot.scr.sh.in:6-45 | Through every try of the first slot and the fallback, the other slot's counter stays what the first boot read it as. |
| `BootChooser.NeverGoodIsTriedOnce` | README.md:80-93 | After its install a slot that never marks itself good is booted at the first boot and the other slot at every later one, in every run without a later install, however often the other slot is marked good. |
| `BootChooser.KeptIffInBudget` | README.md:80-93 | From an order of both slots, in every run that does not install the other slot, every boot is of the first slot exactly if each boot finds budget: its tries at first, one after each mark-good or install of it, one less after each boot. |
| `BootChooser.GoodSlotIsKept` | README.md:80-93 | The first of two slots, with a try left, that is marked good between each boot and the next is never abandoned, in every run that does not install the other slot. |
| `BootChooser.MarkGoodBuysOneBoot` | meta-picocalc-bsp-rockchip/recipes-bsp/u-boot/files/boot.scr.sh.in:6-9 | Mark-good's counter of 3 is read as 1: the next boot without a mark-good is the slot's last. |
| `BootChooser.FallbackLastsUntilInstall` | meta-picocalc-bsp-rockchip/recipes-bsp/u-boot/files/boot.scr.sh.in:13-44 | Once fallen back, no boot and no mark-good brings the other slot back; only an install does. |
| `BootChooser.BootsIff` | meta-picocalc-bsp-rockchip/recipes-bsp/u-boot/files/boot.scr.sh.in:47-55 | A remark on permanence: an order that is none of the five recognised resets with nothing saved, and so on every boot. |
| `PcmRing.RingCounts` | meta-picocalc-bsp-rockchip/recipes-kernel/linux/files/picocalc/picocalc_snd-pwm/picocalc_snd_pwm.c:97-114 | After n samples the position is n mod the buffer size, the period counter n mod the period size, n div the period size notifications were sent, and the j-th came when j + 1 whole periods had been played. |
| `PcmRing.NotifiedOnBoundaries` | meta-picocalc-bsp-rockchip/recipes-kernel/linux/files/picocalc/picocalc_snd-pwm/picocalc_snd_pwm.c:108-114 | Where the period size divides the buffer size every notification comes at a period boundary of the buffer. |
| `SndPwm.Device.Cb1` | meta-picocalc-bsp-rockchip/recipes-kernel/linux/files/picocalc/picocalc_snd-pwm/picocalc_snd_pwm.c:78-118 | The whole stream after a tick, and whether the timer runs on. |
| `SndPwm.Device.Trigger` | meta-picocalc-bsp-rockchip/recipes-kernel/linux/files/picocalc/picocalc_snd-pwm/picocalc_snd_pwm.c:227-259 | The whole stream after a start, a stop or an unknown command. |
| `SndPwm.PlaysInOrder` | meta-picocalc-bsp-rockchip/recipes-kernel/linux/files/picocalc/picocalc_snd-pwm/picocalc_snd_pwm.c:97-114 | After a start and n ticks, the buffer being rewritten all along, the pointer is n mod the buffer size and the PWM has the duty of the sample held there. |
| `SndPwm.DutyFits` | meta-picocalc-bsp-rockchip/recipes-kernel/linux/files/picocalc/picocalc_snd-pwm/picocalc_snd_pwm.c:105-106 | No 32-bit overflow, and a duty of at most the PWM period, within 255 of the exact product. |
| `SndPwm.AccumulatedDuty` | meta-picocalc-bsp-rockchip/recipes-kernel/linux/files/picocalc/picocalc_snd-pwm/picocalc_snd_pwm.c:100-106 | Over any n samples the summed duty is never above 15625/255 of the summed samples and short of it by less than n nanoseconds. |
| `SndPwm.StopFreezes` | meta-picocalc-bsp-rockchip/recipes-kernel/linux/files/picocalc/picocalc_snd-pwm/picocalc_snd_pwm.c:83-86 | After a stop no tick restarts the timer, and any number of them leaves pointer, notifications and the PWM's duty as they were. |
| `SndSoftPwm.Device.Cb1` | meta-picocalc-bsp-rockchip/recipes-kernel/linux/files/picocalc/picocalc_snd-softpwm/picocalc_snd_softpwm.c:75-99 | The whole stream after the first timer fires: pin, second timer, next expiry. |
| `SndSoftPwm.Device.Cb2` | meta-picocalc-bsp-rockchip/recipes-kernel/linux/files/picocalc/picocalc_snd-softpwm/picocalc_snd_softpwm.c:108-149 | The whole stream after the second timer fires: pin, next sample, duty, counters. |
| `SndSoftPwm.Device.Trigger` | meta-picocalc-bsp-rockchip/recipes-kernel/linux/files/picocalc/picocalc_snd-softpwm/picocalc_snd_softpwm.c:265-298 | The whole stream after a start, a stop or an unknown command. |
| `SndSoftPwm.PulseFits` | meta-picocalc-bsp-rockchip/recipes-kernel/linux/files/picocalc/picocalc_snd-softpwm/picocalc_snd_softpwm.c:138-138 | No 32-bit overflow, and a pulse of the sample's part of the period, rounded down. |
| `SndSoftPwm.PulsesInOrder` | meta-picocalc-bsp-rockchip/recipes-kernel/linux/files/picocalc/picocalc_snd-softpwm/picocalc_snd_softpwm.c:88-145 | With no sample of 0 or 255 among the first n, the pin's edges are one rise and one fall a cycle, cycle k high for the duty of sample k mod the buffer size. |
| `SndSoftPwm.FallBetweenRises` | meta-picocalc-bsp-rockchip/recipes-kernel/linux/files/picocalc/picocalc_snd-softpwm/picocalc_snd_softpwm.c:88-93 | A fall comes strictly between its rise and the next one exactly for samples 1 to 254. |
| `SndSoftPwm.PlaysAtPosition` | meta-picocalc-bsp-rockchip/recipes-kernel/linux/files/picocalc/picocalc_snd-softpwm/picocalc_snd_softpwm.c:75-149 | Whatever the samples, after n cycles pointer and duty are those of the position reached, with one timer pending. |
| `SndSoftPwm.KeepsPaceIff` | meta-picocalc-bsp-rockchip/recipes-kernel/linux/files/picocalc/picocalc_snd-softpwm/picocalc_snd_softpwm.c:88-93 | The stream is n samples on after n cycles exactly if none of the first n was 0 or 255. |
| `SndSoftPwm.FrozenAt` | meta-picocalc-bsp-rockchip/recipes-kernel/linux/files/picocalc/picocalc_snd-softpwm/picocalc_snd_softpwm.c:88-93 | From the first sample of 0 or 255 on, the position is that sample's for ever. |
| `SndSoftPwm.StopLeavesPin` | meta-picocalc-bsp-rockchip/recipes-kernel/linux/files/picocalc/picocalc_snd-softpwm/picocalc_snd_softpwm.c:116-121 | A stop writes nothing to the pin and moves neither pointer nor notifications, nor do the timers that fire after it: the pin is left high exactly if the first timer of the cycle had fired with a sample other than 0, or on a stall at 255, or if it was high before the start and nothing was written since (before the first cycle, or on a first sample of 0). |

## Left out

- Ili9488Driver.Ili9488.UpdateDisplay: asks in the 3-bit modes for an even batch capacity or room for the screen in one batch, which the constructor gives at every size; a transmit buffer of another size is covered by WriteVmem3Bit alone.
- Ili9488Driver.Ili9488.WriteVmem3Bit: for an odd batch capacity below the request, which the probe function never gives, states how many bytes go out and what is read, not which bytes. One loop for the plain and the dithered writer, which differ in the decision alone; that decision is a parameter. The branch without a transmit buffer cannot be reached after a successful probe and is not modelled.
- Ili9488Driver.Ili9488.DeferredIo: runs with video memory at rest; concurrent draws are in `FlushProtocol`, where the same range functions are used.
- FlushProtocol.NoLostUpdate: claims nothing, until a flush takes it, of a pixel that an odd batch left out, or of a line whose mark was cut off above the screen, because such a mark does drop lines (`DirtyRange.NeverDroppedIff` gives the exact condition). A cut-off mark concerns the int parameter of the marking function; the rectangles that reach it carry unsigned coordinates, so a value below -1 comes only from converting one of 2^31 or more.
- FlushProtocol.DropKeeps: in the 3-bit modes the batch capacity is even or holds the screen, as the probe function gives; with an odd one below the screen a batch in mid-window would be odd, and the panel would take the pixels after it one place early.
- FlushProtocol.StepKeeps: `ili9488_blank` is not a step. It writes a register through the same buffer and pins without a lock and leaves the data pin low, so what a running flush sends next can be spoilt; the protocol assumes that no blanking happens while the worker runs. It also assumes of the kernel's deferred I/O that the worker does not run twice at once, that touched pages are handed over whole, and that no page is touched or written through a mapping while the callback runs.
- PollRuns.PollingIsFold: entries that arrive during a poll count as arriving before it, or, once a read found the queue empty, before the next one.
- BootChooser.UBoot.RunScript: `setexpr` is plain subtraction on integers; U-Boot's hexadecimal text, and a build without that command, are not modelled. Loading and starting the image is left out.
- SndSoftPwm.PlaysAtPosition: timers are ideal; a late timer, and a start while an older timer is pending, are not modelled.
- SPI, GPIO, I2C, PWM, regmap and sysfs calls, delays, chip select, resets and the panel's init sequence: only bytes with the data pin's level, reports, pin edges and duties are kept.
- `ili9488_clear`, the grayscale helpers and the unused dither tables: not called.
- Enter and Insert on scancode 0xD1: the driver can report one of them down and the other up, so no claim that such a key comes up is made.
- The input core: it drops keycodes that were not declared (KEY_INSERT is not) and repeats held keys; the model stops at what the driver reports.
- `picocalc_mfd_kbd.c`: a simpler form of the same key handling.
- Backlight, LED, battery and core MFD drivers: one-branch register wrappers.
- Probe and remove paths beyond the sizes and first values used here, device trees, recipes, certificates and the overlay script.
