# lpc32x0-utilities, modelled in Dafny

lpc32x0-utilities are small command-line tools that read, decode and write
the memory-mapped peripheral registers of an NXP LPC32x0 system-on-chip
through `/dev/mem`. This project models the tools' core:

- **The bitfield codec** (`get_field`, `print_field`, `print_access` in
  src/registers.c): modules `Word` (32-bit words as bounded integers, with
  shifts and AND spelled out) and `Bitfield`.
- **The register catalog** (`AllRegisters_G` and the eleven descriptor
  tables clkpower, gpdma, emc, mlc, slc, lcd, ts, spi, ssp, gpio, pinmux).
  Each table is a module of the same name holding the table as a sequence
  of `RegisterDescription` values. `Registers` holds the access encoding and
  the page arithmetic. `Catalog` holds the ordered set list and the
  first-match scan `Find`. `CatalogFacts` and `DumpFacts` hold the facts
  about the concrete catalog.
- **Permission-checked access through one 4 KiB window** (`open_dev_mem`,
  `set_mapping`, `lpc32x0__get_reg`/`set_reg`/`print_reg`/`cleanup` and the
  two dump functions). The class `DevMem.Window` holds the globals
  `memFd_G`, `map_pG` and `curBase_G`. Physical memory is a word map `phys`,
  and every load and store the tools make is logged. The outcomes of `open`
  and `mmap` are parameters (`openOk`, `mmapOk`). A single access takes
  one outcome of each; a whole dump takes one outcome of each for all of
  its registers (see "Left out").
- **The SPI-NOR driver** of src/lpc32x0-spi.c: the class `SpiNor.Driver`
  appends every register access to a `trace`. The words that SPI1_STAT and
  SPI1_DAT return come from two oracles, `stat` and `dat`. `SpiOps` defines
  the expected bus traffic: `TxOps`, `RxOps`, `ReadflashOps` and `GetidOps`.
  Status polls are set aside by `Quiet`, and the predicates `TxPolled` and
  `RxPolled` say what each poll waited for. `SpiFacts` relates that
  traffic to the catalog's permission checks.
- **The interrupt-block accumulator** of src/interrupt.c: the class
  `Interrupt.Decoder` holds the static `init` flag and the three six-record
  arrays MIC, SIC1 and SIC2. `IntBlocks` holds the pure specification
  `Decode` and the facts about it.

## Model

| member | source | states |
|---|---|---|
| Word.AndLowOnes | src/registers.c:36-46 | masking with 2^n - 1 keeps exactly the value modulo 2^n, the arithmetic meaning of the mask `get_field` builds |
| Word.AndHighOnes | src/registers.c:165 | masking a value below 2^k with 2^k - 2^n clears its low n bits: it is the value rounded down to a multiple of 2^n |
| Bitfield.GetFieldSpec | src/registers.c:31-47 | an invalid range (high < low or high > 31) gives 0; otherwise the result is `(val >> low)` masked to high-low+1 bits |
| Bitfield.ReferenceBit | src/registers.c:36-46 | bit by bit, the field equals the shift-and-mask reference definition, and the mask fits in 32 bits |
| Bitfield.GetFieldBit | src/registers.c:36-46 | bit k of the field is bit low+k of the value when k <= high-low, and 0 above that |
| Bitfield.GetFieldBound | src/registers.c:36-46 | a valid field is below 2^(high-low+1) |
| Bitfield.GetFieldWhole | src/registers.c:36-46 | the field [31:0] is the whole value |
| Bitfield.PrintField | src/registers.c:50-81 | returns exactly the field; prints nothing for an invalid range; otherwise renders the 35-character text "0b" + the field's digits + '.' padding |
| Bitfield.FieldTextAt | src/registers.c:67-79 | the character at each position of the rendered text: '0', 'b', a digit, or '.' |
| Bitfield.PrintedDigits | src/registers.c:67-79 | the k-th printed digit is bit high-k of the value, most significant first, and the digits parse back to the field |
| Bitfield.ParseFieldDigits | src/registers.c:67-79 | reading the n printed digits as binary gives back any value below 2^n (the rendering's inverse) |
| Bitfield.PrintAccess | src/registers.c:18-25 | read-only renders "R", write-only "W", read-write "RW" |
| Registers.AccessEncoding | src/registers.h:14-18 | read is 1 and write is 2, which share no bits; RW is their sum; every permission is a non-empty subset of the two bits, and the bitwise tests read and write as expected |
| Registers.PageMasks | src/registers.c:165-200 | the page base is `addr & 0xfffff000` and the offset `addr & 0xfff`, as the masks of `set_mapping` and the accessors compute them |
| Registers.PageSplit | src/registers.c:165-201 | the page base `addr & 0xfffff000` plus the offset `addr & 0xfff` is the address; the page is the only 4 KiB-aligned window holding it |
| Catalog.ScanSpec | src/registers.c:189-206 | the nested scan returns the first position, in set-then-index order, whose address matches and whose access allows the need, or reports that none exists |
| Catalog.FindSpec | src/registers.c:189-206 | `Find` is Some(p) exactly when p is the first permitted match, and None exactly when there is no permitted match |
| Catalog.Regions | src/registers.c:106-137 | every entry of the eleven sets lies in its set's address region |
| Catalog.ResolvesTo | src/registers.c:189-202 | an entry whose address occurs once in its set, in no earlier set, and which permits the need is what the scan finds |
| Catalog.RefusedBy | src/registers.c:193-206 | an entry that is the only one with its address and refuses the need makes the scan fail: a non-permitted match is skipped |
| Catalog.Owned | src/registers.c:189-206 | an address owned by one entry resolves to it exactly when the entry permits the need |
| CatalogFacts.SharedClockRegisters | src/clkpwr.c:1540-1552 | MS_CTRL, MACCLK_CTRL, LCDCLK_CTRL, SSP_CTRL, SPI_CTRL, ADCLK_CTRL and ADCLK_CTRL1 first-match clkpower's decoded entries for every need, because clkpwr is scanned first |
| CatalogFacts.ClockResolves | src/clkpwr.c:1521-1557 | every clkpower address except the two start-status registers resolves to its own clkpower entry, whatever the need |
| CatalogFacts.ClockEntry | src/clkpwr.c:1521-1557 | every clkpower entry carries a decoder, and every entry other than START_SR_PIN and START_SR_INT is read-write |
| CatalogFacts.StartStatusReadOnly | src/clkpwr.c:1532-1533 | START_SR_PIN and START_SR_INT are found for reading but refused for writing |
| CatalogFacts.LcdConfigShowsClockEntry | src/lcd.c:358 | lcd's LCD_CFG (0x40004054, no decoder) loses to clkpwr's decoded LCDCLK_CTRL |
| CatalogFacts.AdcClocksShowClockEntries | src/ts.c:335-336 | ts's ADCLK_CTRL and ADCLK_CTRL1 lose to clkpwr's entries, so ts's own decoders for them are never reached |
| CatalogFacts.SpiClockShowsClockEntry | src/spi.c:239 | spi's decoder-less SPI_CTRL resolves to clkpwr's decoded SPI_CTRL |
| CatalogFacts.SspClockShowsClockEntry | src/ssp.c:218 | ssp's SSP_CTRL resolves to clkpwr's SSP_CTRL |
| CatalogFacts.PinmuxClocksShowClockEntries | src/pinmux.c:506-509 | pinmux's MAC_CLK_CTRL, LCD_CFG and MS_CTRL resolve to clkpwr's MACCLK_CTRL, LCDCLK_CTRL and MS_CTRL |
| CatalogFacts.EmcRegistersInClockPage | src/emc.c:669-730 | the emc registers in clkpwr's page resolve to emc's entries; EMCStatus, DDR_LAP_COUNT and DDR_CAL_DELAY are refused for writing |
| CatalogFacts.EmcLandmark | src/emc.c:669-730 | each landmark emc address resolves to its emc entry, and only the read-only three are refused for writing |
| CatalogFacts.EmcEntry | src/emc.c:669-730 | EMCStatus, DDR_LAP_COUNT and DDR_CAL_DELAY are read-only; every other emc entry is read-write |
| CatalogFacts.GpdmaOwnsItsEntries | src/gpdma.c:321-383 | every gpdma address resolves to its own entry exactly when the entry permits the need |
| CatalogFacts.GpdmaClearRegistersNotRead | src/gpdma.c:324-326 | DMACIntTCClear and DMACIntErrClr are refused for reading and found for writing |
| CatalogFacts.MlcOwnsItsEntries | src/mlc.c:264-284 | every mlc address resolves to its own entry exactly when the entry permits the need |
| CatalogFacts.MlcReadableRegisters | src/mlc.c:264-284 | exactly MLC_BUFF, MLC_DATA, MLC_IRQ_SR and MLC_ISR can be read |
| CatalogFacts.SlcOwnsItsEntries | src/slc.c:278-294 | every slc address resolves to its own entry exactly when the entry permits the need |
| CatalogFacts.SspDataAndClearNotRead | src/ssp.c:223-236 | SSP0DR, SSP1DR, SSP0ICR and SSP1ICR are refused for reading and found for writing |
| CatalogFacts.SspLandmark | src/ssp.c:219-238 | each write-only ssp landmark is refused for reading and found for any other need |
| CatalogFacts.GpioLandmark | src/gpio.c:316-342 | each landmark gpio address resolves to its entry exactly when the need fits the entry (state registers read-only, the rest write-only) |
| CatalogFacts.GpioEntry | src/gpio.c:316-342 | no gpio entry is read-write: state registers are read-only and all others write-only |
| CatalogFacts.GpioDriverRegisters | src/gpio.c:335-341 | P3_OUTP_SET, P3_OUTP_CLR and P2_DIR_SET cannot be read; P2_DIR_STATE can be read but not written; P2_DIR_SET has a decoder and P2_DIR_STATE none |
| CatalogFacts.PinmuxLandmark | src/pinmux.c:508-521 | UART_CTRL resolves for every need and P2_MUX_CLR for writing only |
| CatalogFacts.SpiLandmark | src/spi.c:240-257 | each SPI1 and SPI2 landmark resolves to its own spi entry for every need |
| CatalogFacts.SpiEntry | src/spi.c:239-257 | every spi entry is read-write |
| CatalogFacts.SpiRegisterConstants | src/registers.h:52-58 | the driver's SPI1_GLOBAL, CON, FRM, STAT and DAT constants are the addresses of the spi table's SPI1 entries of those names, and all five share page 0x20088000 |
| CatalogFacts.DriverRegistersPermitted | src/registers.h:49-58 | every register the driver writes first-matches an entry with write permission, and SPI1_STAT and SPI1_DAT first-match readable entries |
| CatalogFacts.UartControlOnlyInPinmux | src/pinmux.c:508 | UART_CTRL resolves to pinmux's entry for every need and occurs nowhere else in the catalog |
| CatalogFacts.SetNamesDistinct | src/registers.c:106-137 | the eleven set names are pairwise distinct |
| CatalogFacts.NoEntryInPageZero | src/registers.c:144-166 | no catalog entry lies in page 0, the initial value of `curBase_G` |
| ClkPwr.TableFacts | src/clkpwr.c:1521-1557 | 37 entries, each word-aligned in page 0x40004000, outside emc's 0x40004068-0x40004074, decoded, RW except the two start-status registers, with the recorded reset (PWR_CTRL 0x12, OSC_CTRL 0x100, SYSCLK_CTRL 0xb48, USB_CTRL 0x80000, USBDIV_CTRL 0xc, DMACLK_CTRL 0x1, FLASHCLK_CNTRL 0x3, UARTCLK_CTRL 0xf, else 0) |
| ClkPwr.LandmarkNames | src/clkpwr.c:1532-1552 | the positions, addresses and names of the start-status and shared clock registers |
| ClkPwr.Unique | src/clkpwr.c:1521-1557 | each landmark address occurs in the table only at its landmark position |
| Gpdma.TableFacts | src/gpdma.c:322-382 | 53 entries in ascending address order, each word-aligned in page 0x31000000 with reset 0, a decoder and the recorded access (two write-only clears, five read-only status registers, the rest RW) |
| Gpdma.ClearRegisters | src/gpdma.c:324-326 | the positions and names of DMACIntTCClear and DMACIntErrClr |
| Gpdma.ChannelLayout | src/gpdma.c:336-382 | channel n's five registers are at 0x31000100 + 0x20n + 4f, all RW |
| Emc.TableFacts | src/emc.c:669-730 | 62 word-aligned entries in 0x40004068-0x40004074 or 0x31080000-0x31080488, decoded, read-only exactly for EMCStatus, DDR_LAP_COUNT and DDR_CAL_DELAY |
| Emc.RecordedResets | src/emc.c:670-690 | EMCControl 0x3, EMCStatus 0x5, EMCDynamicControl 0x6, EMCDynamicRasCas0/1 0x303 |
| Emc.LandmarkNames | src/emc.c:669-730 | the positions, addresses and names of the clock-page registers and EMCStatus |
| Emc.Unique | src/emc.c:669-730 | each landmark address occurs only at its landmark position |
| Mlc.TableFacts | src/mlc.c:264-284 | 21 ascending word-aligned entries in pages 0x200a8000, 0x200b0000 and 0x200b8000; MLC_BUFF and MLC_DATA RW without a decoder, MLC_IRQ_SR and MLC_ISR read-only, the rest write-only; only MLC_TIME_REG resets to 0x37 |
| Mlc.Named | src/mlc.c:264-284 | the positions, addresses and names of MLC_BUFF, MLC_DATA, MLC_TIME_REG, MLC_IRQ_SR and MLC_ISR |
| Slc.TableFacts | src/slc.c:279-293 | 15 ascending word-aligned entries in page 0x20020000, reset 0, decoded, with the recorded write-only, read-only and RW offsets |
| Lcd.TableFacts | src/lcd.c:358-381 | 24 entries: LCD_CFG is the decoder-less clock register, the rest are decoded registers of page 0x31040000; reset 0; the recorded write-only and read-only registers, the rest RW |
| Lcd.LandmarkNames | src/lcd.c:358 | entry 0 is LCD_CFG at 0x40004054 |
| Lcd.Unique | src/lcd.c:358-381 | each landmark address occurs only at its landmark position |
| Ts.TableFacts | src/ts.c:335-354 | 20 decoded entries: the two clock registers, the rest in page 0x40048000; the recorded read-only registers; ADC_STAT resets to 0x80, ADC_SELECT to 0x4 |
| Ts.LandmarkNames | src/ts.c:335-338 | the positions, addresses and names of ADCLK_CTRL, ADCLK_CTRL1, ADC_STAT and ADC_SELECT |
| Ts.Unique | src/ts.c:335-354 | each landmark address occurs only at its landmark position |
| Spi.TableFacts | src/spi.c:239-257 | 19 RW entries: SPI_CTRL without a decoder, the rest in the SPI1 or SPI2 page, with the reset recorded for their offset (CON 0xe08, STAT 0x1, TIM_CTRL 0x2) and a decoder except for the data registers |
| Spi.Pairs | src/spi.c:240-257 | each SPI2 entry is its SPI1 twin moved by 0x8000, with the same reset, access and decoder |
| Spi.LandmarkNames | src/spi.c:239-249 | the positions, addresses and names of SPI_CTRL and SPI1_GLOBAL/CON/FRM/STAT/DAT |
| Spi.Unique | src/spi.c:239-257 | each landmark address occurs only at its landmark position |
| Ssp.TableFacts | src/ssp.c:218-238 | 21 entries with reset 0: SSP_CTRL RW without a decoder, the rest in the SSP0 or SSP1 page with the access recorded for their offset, decoded unless write-only |
| Ssp.Pairs | src/ssp.c:219-238 | each SSP1 entry is its SSP0 twin moved by 0x8000 |
| Ssp.LandmarkNames | src/ssp.c:218-236 | the positions, addresses and names of SSP_CTRL, SSP0DR, SSP1DR, SSP0ICR and SSP1ICR |
| Ssp.Unique | src/ssp.c:218-238 | each landmark address occurs only at its landmark position |
| Gpio.TableFacts | src/gpio.c:316-342 | 24 word-aligned entries in page 0x40028000 with reset 0; state registers read-only, all others write-only |
| Gpio.StateNames | src/gpio.c:316-342 | an entry is a state register exactly when its name ends in "_STATE" |
| Gpio.DirectionDecoders | src/gpio.c:335-337 | P2_DIR_SET has a decoder and P2_DIR_STATE has none |
| Gpio.LandmarkNames | src/gpio.c:335-341 | the positions, addresses and names of P2_DIR_SET, P2_DIR_STATE, P3_INP_STATE, P3_OUTP_SET and P3_OUTP_CLR |
| Gpio.Unique | src/gpio.c:316-342 | each landmark address occurs only at its landmark position |
| Pinmux.TableFacts | src/pinmux.c:506-524 | 19 entries with reset 0: the three clock duplicates and UART_CTRL are RW; mux state registers read-only, mux set/clear registers write-only |
| Pinmux.StateNames | src/pinmux.c:510-524 | a mux entry is a state register exactly when its name ends in "_MUX_STATE" |
| Pinmux.SharedDecoders | src/pinmux.c:506-509 | MAC_CLK_CTRL and LCD_CFG carry no decoder; UART_CTRL and MS_CTRL do |
| Pinmux.LandmarkNames | src/pinmux.c:506-521 | the positions, addresses and names of the clock duplicates, UART_CTRL and P2_MUX_CLR |
| Pinmux.Unique | src/pinmux.c:506-524 | each landmark address occurs only at its landmark position |
| DevMem.Shown | src/registers.c:256-258 | the entry `print_reg` shows has the address asked for |
| DevMem.ReadableIsShown | src/registers.c:189-258 | every address `get_reg` can read has an entry for `print_reg` to show |
| DevMem.NamedSetSpec | src/registers.c:293-303 | the name search finds the first set with exactly that name, or reports that none has it |
| DevMem.NamedSetFindsItself | src/registers.c:312-313 | with distinct names, each set's own name finds that set |
| DevMem.SelfNamedIffDistinct | src/registers.c:312-315 | every set is found by its own name exactly when the set names are distinct |
| DevMem.DumpLinesGood | src/registers.c:297-300 | every dumped line shows a readable entry's first match and the word at that address |
| DevMem.DumpOfSelfShown | src/registers.c:297-300 | for a set whose entries are their own first matches, the dump lists exactly its readable entries with their words |
| DevMem.Lookup | src/registers.c:189-206 | the nested index loops compute `Find` |
| DevMem.Window.constructor | src/registers.c:142-144 | no descriptor, no mapping, base 0, an empty log |
| DevMem.Window.OpenDevMem | src/registers.c:147-157 | opens only when not open yet; succeeds when it was open or the open succeeds |
| DevMem.Window.SetMapping | src/registers.c:160-177 | afterwards the base is the address's page; it succeeds exactly when that page is mapped; the existing mapping is kept when it is that page; otherwise mmap is attempted |
| DevMem.Window.Cleanup | src/registers.c:239-249 | closes the descriptor and drops the mapping; `curBase_G` is kept |
| DevMem.Window.GetReg | src/registers.c:180-207 | succeeds exactly when the device opens, some entry first-matches with read permission and the page maps; it then loads that word and nothing else; on failure nothing is loaded, and the value is 0xffffffff once the device is open |
| DevMem.Window.SetReg | src/registers.c:210-236 | the write-permission mirror: on success memory changes at that one address only; on failure nothing is stored |
| DevMem.Window.PrintReg | src/registers.c:252-285 | true exactly when some entry has the address, whatever its access; shows that first match; runs the decoder only when verbose and a decoder exists |
| DevMem.Window.DumpRegs | src/registers.c:297-300 | the lines are the set's dump when the device opens and the maps succeed; no lines when the device cannot open; only readable first matches are shown, and the log holds exactly their loads |
| DevMem.Window.GetAndPrintRegSetByName | src/registers.c:288-304 | true exactly when a set of that name exists; that set's dump; nothing opened when no set matches |
| DevMem.Window.GetAndPrintAllRegs | src/registers.c:307-316 | returns true, because every set is found by its own name; the lines are every set's dump in catalog order |
| DevMem.CatalogNamesDistinct | src/registers.c:106-137 | the catalog's set names are distinct |
| DumpFacts.OwnedSetsDump | src/gpdma.c:321-383 | a gpdma, mlc or slc dump lists exactly the set's readable entries, so gpdma's two clear registers are skipped |
| DumpFacts.MlcReadableLines | src/mlc.c:264-284 | the readable mlc entries are exactly MLC_BUFF, MLC_DATA, MLC_IRQ_SR and MLC_ISR |
| DumpFacts.MlcDump | src/mlc.c:264-284 | an "mlc" dump reads and shows just those four registers |
| SpiOps.FrameLen | src/lpc32x0-spi.c:126-129 | a frame is min(remaining, 65535) bytes, positive when bytes remain |
| SpiOps.FramesSpec | src/lpc32x0-spi.c:125-166 | the frame lengths sum to the length; there are ceil(len/65535) of them; each is positive and at most 65535; all but the last are full |
| SpiOps.FramesOf70000 | src/lpc32x0-spi.c:125-132 | 70000 bytes go as frames of 65535 and 4465 |
| SpiOps.QuietAppend | src/lpc32x0-spi.c:136-143 | setting the status polls aside distributes over concatenation |
| SpiOps.RxPolledRejects | src/lpc32x0-spi.c:171-178 | a DAT read with no status poll before it, and a DAT read after a second status read showing bit 0x08 without the shift-off write, and a shift-off write inside the wait for the FIFO not empty, all break receive pacing |
| SpiOps.SessionQuiet | src/lpc32x0-spi.c:204-222 | setting polls aside commutes with wrapping a transfer in chip select |
| SpiNor.Driver.constructor | src/lpc32x0-spi.c:26 | `buf_G` holds 256 zero bytes; no access made yet |
| SpiNor.Driver.Poll | src/lpc32x0-spi.c:136-174 | reads SPI1_STAT until the mask shows as wanted; every earlier read did not |
| SpiNor.Driver.SpiInit | src/lpc32x0-spi.c:56-78 | writes exactly P2_MUX_CLR 0x30, P2_DIR_SET 0x60000000, P3_OUTP_SET 0x40000000, SPI_CTRL 0x03, then SPI1_GLOBAL 0x01, 0x03, 0x01 |
| SpiNor.Driver.CsHigh | src/lpc32x0-spi.c:101-106 | one write of 0x40000000 to P3_OUTP_SET |
| SpiNor.Driver.CsLow | src/lpc32x0-spi.c:108-112 | one write of 0x40000000 to P3_OUTP_CLR |
| SpiNor.Driver.SpiTx | src/lpc32x0-spi.c:114-146 | with the polls set aside the bus sees `TxOps(data)`: CON = 0x808e83 once, then per frame FRM, the frame's bytes to DAT in order and an interrupt clear; each data write follows a status read showing FIFO-full clear and each clear one showing FIFO-empty set; no shift-off rewrite of SPI1_CON; no access at all for len 0 |
| SpiNor.Driver.SendFrame | src/lpc32x0-spi.c:130-144 | one transmit frame: FRM, the paced data writes, the paced interrupt clear, and no shift-off rewrite of SPI1_CON |
| SpiNor.Driver.SpiRx | src/lpc32x0-spi.c:148-187 | with the polls set aside the bus sees `RxOps`: CON = 0x800e83 once, then per frame FRM, a dummy DAT read, one DAT read per byte and a clear; every byte's DAT read follows a poll showing FIFO-empty clear and then a second status read, with the shift-off write in between exactly when that second read shows bit 0x08, and no shift-off write happens elsewhere; no access at all for len 0; byte k of the buffer is the low 8 bits of its DAT read; the rest of the buffer is unchanged |
| SpiNor.Driver.ReceiveFrame | src/lpc32x0-spi.c:158-185 | one receive frame: FRM, the dummy DAT read, per byte the FIFO-not-empty poll, the second status read, the shift-off write exactly when it shows bit 0x08 and the DAT read, then the clear; its bytes land at its positions, nothing else changes |
| SpiNor.Driver.SpiReadflash | src/lpc32x0-spi.c:189-209 | len 0 does nothing (no access, nothing printed, `buf_G` unchanged); otherwise clears `buf_G`, sends the fast-read command between chip-select low and high, receives len bytes into the caller's buffer, and prints the first len bytes of `buf_G` |
| SpiNor.Driver.SpiGetid | src/lpc32x0-spi.c:211-224 | sends 0x9f and receives three bytes into `buf_G` between chip select low and high; the id is the low bytes of the three DAT reads after the dummy |
| SpiFacts.CommandBytes | src/lpc32x0-spi.c:198-202 | the command is 0x0b, the address's three low bytes big-endian, then 0; the three bytes recombine to `addr mod 2^24` |
| SpiFacts.GetidBus | src/lpc32x0-spi.c:216-222 | the complete non-polling bus traffic of `spi_getid` |
| SpiFacts.InitPermitted | src/lpc32x0-spi.c:56-78 | every write of `spi_init` passes `set_reg`'s permission check |
| SpiFacts.DriverOpPermitted | src/registers.h:49-58 | every register access of the driver's kind passes the permission check |
| SpiFacts.TxDriverOnly | src/lpc32x0-spi.c:114-146 | a transmit touches only the driver's registers, in the directions the catalog permits |
| SpiFacts.RxDriverOnly | src/lpc32x0-spi.c:148-187 | a receive touches only the driver's registers |
| SpiFacts.ReadflashDriverOnly | src/lpc32x0-spi.c:189-209 | a flash read touches only the driver's registers |
| SpiFacts.GetidDriverOnly | src/lpc32x0-spi.c:211-224 | an id read touches only the driver's registers |
| IntBlocks.Locate | src/interrupt.c:223-283 | a recognised address is its block's base plus four times the slot index |
| IntBlocks.LocateComplete | src/interrupt.c:223-279 | each of the 18 slot addresses (0x40008000, 0x4000c000, 0x40010000 plus 4k, k = 0..5) is recognised as that slot |
| IntBlocks.GetBitMeaning | src/interrupt.c:27-40 | '?' exactly for bitPos > 31; otherwise '1' exactly when the bit is set and '0' exactly when it is clear |
| IntBlocks.CountAll | src/interrupt.c:291-296 | the count is the block's size exactly when every slot is set |
| IntBlocks.CountUpdate | src/interrupt.c:284-296 | storing a record changes the count by the change in that slot's flag |
| IntBlocks.RowShowsBits | src/interrupt.c:167-172 | a non-reserved row shows, per register, '1' exactly when that bit is set and '0' exactly when it is clear |
| IntBlocks.PrintBlockRowCases | src/interrupt.c:147-173 | nothing for a missing name, a missing block or bit > 31; the legend only for bit 31; otherwise the row |
| IntBlocks.BlockTextOrder | src/interrupt.c:175-206 | a block report is the legend followed by the rows of bits 31 down to 0, in that order |
| IntBlocks.DecodeUnknown | src/interrupt.c:281-282 | an unknown address changes no record and prints nothing |
| IntBlocks.DecodeRecord | src/interrupt.c:284-321 | a known address sets that one slot; only its block can be reported, and it is reported and zeroed exactly when all six slots are now set |
| IntBlocks.DecodeKeepsNoneFull | src/interrupt.c:290-321 | after every call no block is full, and at most the block just written is flushed |
| IntBlocks.DecodeRerecord | src/interrupt.c:284-299 | re-recording a set slot overwrites it without changing the block's count or flushing |
| IntBlocks.DecodeCompletes | src/interrupt.c:290-321 | a call flushes its block exactly when it fills the block's last empty slot |
| Interrupt.Clear | src/interrupt.c:218-220 | the block is all zero records |
| Interrupt.CountSet | src/interrupt.c:291-295 | the loop counts the set slots |
| Interrupt.ProcessBlock | src/interrupt.c:175-206 | the loop from bit 31 down emits exactly the block report |
| Interrupt.Decoder.constructor | src/interrupt.c:23-213 | zero-filled blocks and `init` true |
| Interrupt.Decoder.DecodeReg | src/interrupt.c:208-322 | the arrays, the flushed blocks and the printed lines are those of `Decode`; afterwards `init` is false and no block is full |
| Interrupt.Decoder.Store | src/interrupt.c:284-321 | storing one record and settling the three blocks in turn is `Fill` |
| Interrupt.Decoder.SettleBlock | src/interrupt.c:290-299 | a full block is reported and zeroed; any other block is untouched |

## Left out

- Field decoders: the peripheral files' printf-only decoder functions are
  represented by the `hasDecoder` flag of each descriptor. `desc_p` (free
  text) is not modelled.
- `open`, `mmap`, `munmap`, `close` and the pointer dereference: their
  outcomes are the parameters `openOk` and `mmapOk`, and physical memory is
  the word map `phys`.
- DevMem.Window.DumpRegs, DevMem.Window.GetAndPrintRegSetByName and
  DevMem.Window.GetAndPrintAllRegs take one `openOk` and one `mmapOk` for
  the whole dump. The C retries `open` on every `get_reg` until it
  succeeds, and `mmap` on every page change, and each attempt may have a
  different outcome. The model does not cover a dump where these outcomes
  change from one register to the next, such as an `open` that fails for
  the first register and then succeeds.
- DevMem.Window.GetReg, DevMem.Window.SetReg and the dumps built on them
  use the corrected `SetMapping`. The C `set_mapping` can report success
  through a stale window: after `lpc32x0__cleanup`, or on the same page
  after a failed `mmap`. Only `SetMappingAsWritten` and the two `Stale*`
  methods under "Findings" show that behaviour. No access method is
  modelled on top of it.
- Console output is modelled only as which entries, rows or bytes are
  chosen, not the exact text. This covers the `print_reg` lines, the set
  titles, the `print_block_row` text and `print_buf`. `PrintReg` returns the
  entry it shows and whether the decoder runs.
- The command-line front ends src/lpc32x0-dump.c, src/lpc32x0-write.c and
  src/lpc32x0-offline.c are not part of this model.
- `spi_reset`, `spi_deinit` and the driver's `main` are not modelled;
  `main` only calls the modelled operations in sequence.
- SpiNor.Driver.SetReg: the driver ignores every `get_reg`/`set_reg`
  result, so the driver's bus is a plain trace. Whether those calls pass
  the catalog's checks is stated apart, by `SpiFacts.DriverOpPermitted` and
  the `*DriverOnly` lemmas.
- SpiNor.Driver.Poll: the status loops are unbounded busy-waits. The model
  requires `Fair()`: the oracle eventually shows each flag value again.
  Without it the C loops never end, and no timing is modelled.
- SpiNor.Driver.SpiReadflash: requires `len <= 256` because the model
  returns the printed prefix of the 256-byte `buf_G`. The C reads past
  `buf_G` when len > 256.
- The oracles' unread positions default to 0. This is only a convenience
  of `At` and is never observed.
- Word.Shl: the C `1 << bits` is a signed-int shift. It is modelled as a
  32-bit unsigned shift, and `get_field` never shifts by 32.
- src/interrupt.h holds only a prototype.
- Concurrency: the window globals are not thread-safe, and the model is
  single-threaded.

## Findings

| source | as written | input that shows it | evidently intended | confidence | as-written member | corrected member |
|---|---|---|---|---|---|---|
| src/registers.c:160-177, 238-249 | `set_mapping` only compares the page with `curBase_G`. `lpc32x0__cleanup` drops the mapping but keeps `curBase_G`, and a failed `mmap` leaves `curBase_G` already updated. | `get_reg(SPI1_STAT)`, then `lpc32x0__cleanup()`, then `get_reg(SPI1_STAT)`: `set_mapping` reports success with `map_pG` NULL. Or a failed mmap for SPI1_STAT followed by `get_reg(SPI1_DAT)`: success with `map_pG` MAP_FAILED. | Remap unless that page is currently mapped. | not executed | DevMem.Window.SetMappingAsWritten (with DevMem.StaleAfterCleanup, DevMem.StaleAfterFailedMap) | DevMem.Window.SetMapping (with DevMem.RemapAfterCleanup, DevMem.RetryAfterFailedMap) |
