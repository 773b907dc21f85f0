# What srcpd puts on the line

A Dafny model of the drivers of srcpd, the server of the Simple Railroad Command Protocol, with proofs about what
reaches the track and what a client is told. Four parts of the daemon are modelled:

- **The NMRA DCC encoder** (`srcpd/src/ddl_nmra.c`). A command becomes packets of bytes, the packets become a string of
  bits, and the bits become bytes of a serial line whose start and stop bits are part of the waveform. Three reading
  functions define the meaning that has to be preserved: from the waveform of a UART to bits (section A of NMRA S-9.1:
  both halves of a one are 1 unit long, those of a zero at least 2), from bits to packets (section A of NMRA S-9.2), and
  from packets to the state of a decoder (sections 2.1 to 2.4 of NMRA S-9.2.1). The code is proved against them, from
  the command to the decoder.
- **The send queue, the packet pools and the refresh cycle** (`srcpd/src/ddl.c`).
- **Feedback contacts with a delayed reset** (`srcpd/src/srcp-fb.c`).
- **Two line protocols**: the bus switching of the Selectrix interface (`srcpd/src/selectrix.c`) and the framing of
  LocoNet packets (`srcpd/src/loconet.c`).

Code that updates state in place is a method over arrays or a class; its contract ties it to a function on values, and
the properties over whole runs are lemmas about these functions.

| files | about |
|---|---|
| `Waveform`, `TableV3`, `TranslateV3`, `PropertiesV3` | the line, and version 3 of the translation, the default |
| `TranslateV2`, `PropertiesV2` | version 2, a backtracking search |
| `Framing`, `Decoders` | receivers and decoders, independent of the code |
| `Builders`, `Command`, `CommandMeaning`, `Accessory`, `Programming` | packets, commands, programming |
| `ServiceDecoder`, `ServiceMode` | the programming track |
| `Lengths`, `Weights`, `CommandStrings`, `CommandLengths` | how many bytes the strings of a command need at most |
| `Track`, `MultiFunction`, `Dispatch` | the way from the server to the decoder, the pool and the queue |
| `Ring`, `PacketQueue`, `Refresh`, `RefreshCycle`, `PacketPool`, `DdlData` | queue, pools, refresh |
| `FeedbackBoard`, `FeedbackProperties`, `Feedback` | feedback contacts |
| `SelectrixBus`, `SelectrixDecoder`, `Selectrix`, `LocoNet` | line protocols |

Conventions: a bit string of the characters 0 and 1 is a `seq<bool>` in which `true` is a one; the fixed character
buffers that hold such strings are values. A C `int` whose bits or wrap-around matter is a `bv32` (`Word`) with signed
comparisons written out; other integers are unbounded. Bytes of the line are `bv8`, or numbers below 256 where no
operator on bits is applied to them.

## What the proofs found

- **Version 3 does not translate every string.** The comment at `srcpd/src/ddl_nmra.c:139-163` says that it does. The
  reading pointer starts at the first of the two ones that are put in front (line 545 undoes line 529), so a string that
  begins with k ones and a zero is seen as k + 2 ones. The translation works if and only if no zero follows, or k + 2 is
  not a multiple of 5, or k + 2 > 400 (`PropertiesV3.WorksExactlyWhen`). With k = 3 the bytes are wrong, and with
  k = 8, 13, ... 398 the loop never ends. Both preambles in use, 15 and 30 ones, are safe. The message that the
  restart does not work is logged if and only if the loop never ends (`PropertiesV3.LogsExactlyWhen`).
- **Version 2 returns one more than it wrote.** The byte that is counted in is zero for every string that is
  translated, whatever the search wrote before it turned back. It puts one stretch on the line that is no bit, behind
  the packet; a receiver has read the string by then, and reads what follows as if it came alone
  (`PropertiesV2.PacketAsCounted`), so packets as they are counted are all heard
  (`PropertiesV2.CountedPacketsAreHeard`). Of 80 bytes written, the one counted in lies behind the array.
- **Version 2 translates a string if and only if** its first way to be cut into patterns, with higher numbers preferred,
  has fewer than 80 of them (`TranslateV2.Encoded`); the search never runs out of room on the way to a shorter one.
- **No string of a command is cut at 80 bytes**, whatever its address, steps and functions
  (`CommandLengths.CommandsFit`). The hard case is the first string for a long address with 128 speed steps and more
  than twelve functions, for which the bound needs the error detection byte: the columns of a packet have an even
  number of ones, and a byte of the translation covers more bits where there are more ones.
- **Short addresses of the versions 3, 4 and 5 reach nobody.** The server hands the protocol version on as the mode of
  the packets, except for addresses above 127, which always have mode 2 (`srcpd/src/ddl.c:1902-1903`, `1958-1965`).
  Modes other than 1 and 2 leave the second byte of the address out of the packets, but not out of their error
  detection bytes. So the packets for a locomotive are without errors, and a decoder at its address obeys, if
  and only if the version is 1 or 2 or the address above 127; otherwise every decoder ignores all of them
  (`Dispatch.DispatchReachesDecoderExactly`).
- **One speed is sent as a stop**: with 29 speed steps, speed 30 (`CommandMeaning.CommandMeansWhatItSays` states it
  exactly). 29 steps never reach the routine through `init_gl_DDL`, which admits 14, 28 and 128, and with these no
  speed is lost (`CommandMeaning.UsualStepsAreObeyed`).
- **Variable 1025 passes the check** of the direct mode at `srcpd/src/ddl_nmra.c:1661-1734` and arrives as variable 1
  (`Programming.ByteProgramMeansWhatItSays`).
- **The send queue forgets everything** when an entry is added to QSIZE - 1 others (`PacketQueue.AddKeepsExactlyWhen`).
- **A report of a closed contact never cancels an opening that waits**, although there is a branch for it, so a short
  bounce is shown as an opening after the contact has closed again (`FeedbackProperties.BounceIsShown`), and the state
  that is shown is the last one reported if and only if that report did not come while an opening waited
  (`FeedbackProperties.ShowsLastReportExactlyWhen`).
- **An opening can be shown before its minimum time.** Openings that are reported several times are queued several
  times. An opening is shown early if and only if an opening of the same contact, left over in the queue from an earlier
  closing, is due (`FeedbackProperties.OpensEarlyExactlyWhen`); with none left over, none is shown early in any run
  (`FeedbackProperties.NothingLeftOverNothingEarly`). `FeedbackProperties.LeftOverOpeningIsShown` is a run in which it
  happens.
- **One Selectrix bus, two shadows**: with one bus, addresses from 128 on share cells with those below, and after a
  command for one of them program and interface are in step if and only if the data are those remembered for the lower
  address (`SelectrixBus.OneBusUpperExactly`). A command for address 126 or 254 switches the bus behind the back of the
  program (`SelectrixBus.ControlCellExactly`).

## Model

| member | source | states |
|---|---|---|
| Waveform.HalvesOfBytes | srcpd/src/ddl_nmra.c:69-82 | The runs of two byte sequences on the line do not melt into each other, since every byte starts low and ends high |
| Waveform.WholeReadsBack | srcpd/src/ddl_nmra.c:80-111 | A line that carries whole bits, each half within its limits, is read back as exactly these bits |
| Waveform.StretchIsRead | srcpd/src/ddl_nmra.c:80-111 | A receiver that goes on behind a stretch that is no bit reads one stretch exactly where a strict one reads anything, and then the same |
| Waveform.SharedReadsBack | srcpd/src/ddl_nmra.c:139-146 | A line whose bytes share their first and last half bits is read back as the bits between |
| TableV3.RowIsRightAlways | srcpd/src/ddl_nmra.c:305-338 | Every byte of the table, first and second try, puts on the line the half and whole bits that its window and length stand for, ones 1 unit and zeros 2 to 9 |
| TranslateV3.SecondTryEscapes | srcpd/src/ddl_nmra.c:139-157 | Where the first try leads to the untranslatable window, the second covers one bit less and does not |
| TranslateV3.ChoiceIsRight | srcpd/src/ddl_nmra.c:139-157 | Off a dead end, looking ahead always finds a byte for 2 to 5 bits that carries them and leads to no dead end |
| TranslateV3.InvStep | srcpd/src/ddl_nmra.c:561-590 | Every round keeps the invariant of the restart: what is written carries what was read, a dead end is left at once from the last fixed position, and the same position is never restarted twice |
| TranslateV3.RoundProgresses | srcpd/src/ddl_nmra.c:561-590 | Every round lowers a lexicographic measure of fixed position, dead end and reading position, so the loop ends |
| TranslateV3.TranslateBitstream2PacketstreamV3 | srcpd/src/ddl_nmra.c:518-593 | For every string that does not jam it: it ends, never complains, and writes the bytes of the look-ahead form, which carry the string, with zeros behind; a string that does not fit is cut at 80 bytes that carry its beginning |
| PropertiesV3.WorksExactlyWhen | srcpd/src/ddl_nmra.c:518-593 | Some number of rounds delivers the string if and only if the string does not jam |
| PropertiesV3.JammedFails | srcpd/src/ddl_nmra.c:529-569 | A string with k ones in front of a zero, k + 2 a multiple of 5 up to 400, is never delivered, however long the loop runs |
| PropertiesV3.LogsExactlyWhen | srcpd/src/ddl_nmra.c:561-575 | The message that the restart does not work is logged if and only if the string jams with eight ones in front or more |
| PropertiesV3.PathConveys | srcpd/src/ddl_nmra.c:518-593 | The look-ahead form of the translation carries every string that does not jam and fits |
| PropertiesV3.PathIsShort | srcpd/src/ddl_nmra.c:305-338 | Second tries of one bit do not happen, and every byte stands for at least two bits |
| PropertiesV3.SizeBound | srcpd/src/ddl_nmra.c:561-592 | Twice the number of bytes is at most n + 3, less three for every byte that the ones in front fill |
| PropertiesV3.ShortStringsFit | srcpd/src/ddl_nmra.c:561-592 | Strings of up to 158 bits are never cut, and take at most (n + 3) / 2 bytes |
| PropertiesV3.NoZeroByte | srcpd/src/ddl_nmra.c:305-338 | No byte of the translation is zero, so string functions see all of it |
| PropertiesV3.ReceiverReads | srcpd/src/ddl_nmra.c:545-592 | A receiver reads a one, the string and up to four ones; the line begins and ends with half of a one |
| PropertiesV3.PacketsCompose | srcpd/src/ddl_nmra.c:545-592 | Translations sent one after the other carry their strings one after the other, joined by ones |
| PropertiesV3.ComposedReads | srcpd/src/ddl_nmra.c:545-592 | A receiver reads them so |
| TranslateV2.EntrySends | srcpd/src/ddl_nmra.c:284-300 | Every byte of the table puts whole bits of its pattern on the line, low half first |
| TranslateV2.TranslateBitstream2PacketstreamV2 | srcpd/src/ddl_nmra.c:456-516 | The search ends; it succeeds exactly for the strings whose first way to be cut has fewer than 80 patterns, with the bytes of that way and one for the tail; these carry the string, the number returned is one more, and the byte counted in is zero if it lies in the packet; the message that the string cannot be translated comes only if no way exists, that of a full buffer only on 80 bits or more |
| TranslateV2.StaysAhead | srcpd/src/ddl_nmra.c:472-515 | Choices that were given up, from where they part from the ones that succeed, are never more in number, have read further after each of them, and lead nowhere |
| TranslateV2.DeepestAtEnd | srcpd/src/ddl_nmra.c:472-515 | When the search succeeds, no way it tried before was longer than the one that it ends with |
| TranslateV2.FirstExists | srcpd/src/ddl_nmra.c:472-515 | There is a first way to cut a string if and only if there is any |
| TranslateV2.EndsWithFirst | srcpd/src/ddl_nmra.c:472-515 | When the search succeeds, its choices are the first way to cut the string |
| TranslateV2.FullMeansFirstIsLong | srcpd/src/ddl_nmra.c:505-511 | The search never makes more choices than the first way to cut the string has, so a full buffer means that this has as many |
| PropertiesV2.ReceiverReads | srcpd/src/ddl_nmra.c:456-516 | A receiver reads the string and up to four ones |
| PropertiesV2.VersionsAgree | srcpd/src/ddl_nmra.c:596-616 | Where versions 2 and 3 both translate a string, a receiver reads the same from either, up to ones around it |
| PropertiesV2.CountedByteIsNoBit | srcpd/src/ddl_nmra.c:472-515 | Behind bytes that carry a string in whole bits, a zero byte is no bit: a receiver has read the string, with up to four ones, and goes on with what follows |
| PropertiesV2.PacketAsCounted | srcpd/src/ddl_nmra.c:456-516 | For every string that version 2 translates, the byte that is counted in is zero; the string is read in front of it, and what follows as if it came alone |
| PropertiesV2.CountedPacketsAreHeard | srcpd/src/ddl_nmra.c:456-516 | Packets of version 2 as they are counted, sent one after the other, are heard as the packets of their strings in order |
| Builders.CalcSingleByte | srcpd/src/ddl_nmra.c:625-638 | The loop gives the low eight bits of the number, the highest first |
| Builders.XorTwoBytes | srcpd/src/ddl_nmra.c:710-722 | The loop gives the exclusive or |
| Builders.Calc14bitAddressByte | srcpd/src/ddl_nmra.c:641-645 | The two bytes of a long address |
| Builders.CalcBaselineSpeedByte | srcpd/src/ddl_nmra.c:648-654 | The byte that `CommandMeaning.BaselineObeyed` shows a decoder to obey |
| Builders.Calc28spstSpeedByte | srcpd/src/ddl_nmra.c:657-671 | The byte that `CommandMeaning.Steps28Obeyed` shows a decoder to obey |
| Builders.Calc128spstAdvOpBytes | srcpd/src/ddl_nmra.c:701-708 | The bytes that `CommandMeaning.Steps128Obeyed` shows a decoder to obey |
| Builders.CalcFunctionGroupOneByte | srcpd/src/ddl_nmra.c:674-683 | The byte that `CommandMeaning.GroupOneObeyed` shows a decoder to obey |
| Builders.CalcFunctionGroupTwoByte | srcpd/src/ddl_nmra.c:686-699 | The byte that `CommandMeaning.GroupTwoLowerObeyed` and `CommandMeaning.GroupTwoUpperObeyed` show a decoder to obey |
| Builders.CalcAddressStream | srcpd/src/ddl_nmra.c:999-1026 | Preamble, start bits and the address bytes that the mode sends, and the exclusive or of all address bytes, sent or not |
| Builders.OneByteFrame | srcpd/src/ddl_nmra.c:1093-1107 | What strcat puts together for an instruction of one byte is the frame of the packet, whose error detection byte covers what the head gives it to cover |
| Builders.TwoByteFrame | srcpd/src/ddl_nmra.c:1093-1107 | The same for two bytes |
| Framing.HearTransmission | srcpd/src/ddl_nmra.c:759-781 | A receiver that counts preambles and collects bytes hears any packets, after preambles of at least 12 ones, exactly as they were sent |
| Framing.CheckedIsIntact | srcpd/src/ddl_nmra.c:1093-1107 | The exclusive or of all bytes of a packet with its error detection byte is zero |
| Framing.ClosedIsIntactExactly | srcpd/src/ddl_nmra.c:1013-1025 | A packet has no errors if and only if its error detection byte was begun with the exclusive or of just the address bytes sent |
| Framing.PlainCloses | srcpd/src/ddl_nmra.c:1093-1107 | Then it is the packet with the exclusive or of all its bytes at the end |
| Framing.LineDeliversPackets | srcpd/src/ddl_nmra.c:518-593 | Translations sent one after the other are heard as the packets of their strings in order |
| Decoders.AddressReadsBack | srcpd/src/ddl_nmra.c:999-1026 | A decoder recovers short and long addresses and the instruction behind them |
| Command.CalcFunctionStream | srcpd/src/ddl_nmra.c:808-882 | The function packets go to the two strings as the number of functions says, each after fifty ones, as frames with their error detection bytes |
| Command.CompNmraMultiFunc | srcpd/src/ddl_nmra.c:1042-1120 | A command is refused exactly outside its ranges; otherwise its strings are the frames of its packets, in every mode |
| CommandMeaning.SignalsSend | srcpd/src/ddl_nmra.c:808-882 | Either string, after any number of ones, is heard as exactly its packets |
| CommandMeaning.BaselineObeyed | srcpd/src/ddl_nmra.c:648-654 | A decoder with 14 steps takes direction, speed and light from it, one with more steps takes a stop or emergency stop |
| CommandMeaning.Steps28Obeyed | srcpd/src/ddl_nmra.c:657-671 | A decoder with 28 steps takes direction and speed from it, but for speed 30, which is a stop |
| CommandMeaning.Steps128Obeyed | srcpd/src/ddl_nmra.c:701-708 | A decoder with 128 steps takes direction and speed from it |
| CommandMeaning.GroupOneObeyed | srcpd/src/ddl_nmra.c:674-683 | A decoder takes functions 0 to 4 from it, in their odd order |
| CommandMeaning.GroupTwoLowerObeyed | srcpd/src/ddl_nmra.c:686-699 | A decoder takes functions 5 to 8 from it |
| CommandMeaning.GroupTwoUpperObeyed | srcpd/src/ddl_nmra.c:686-699 | A decoder takes functions 9 to 12 from it |
| CommandMeaning.ExpansionLowObeyed | srcpd/src/ddl_nmra.c:808-882 | A decoder takes functions 13 to 20 from the first expansion instruction |
| CommandMeaning.ExpansionHighObeyed | srcpd/src/ddl_nmra.c:808-882 | A decoder takes functions 21 to 28 from the second |
| CommandMeaning.CommandMeansWhatItSays | srcpd/src/ddl_nmra.c:1042-1126 | For every accepted command of mode 1 or 2, a decoder at the address that executes all packets ends with the commanded direction, and with the commanded speed, 127 if it is more, if and only if it is not speed 30 of 29 steps; its functions are the bits of the function word from 0 on, up to the end of the group of the last one, and otherwise as before; every decoder at another address stays as it was |
| CommandMeaning.AcceptedExactly | srcpd/src/ddl_nmra.c:1066-1074 | A command is accepted if and only if its address is 1 to 127 for mode 1 and 1 to 10239 otherwise, its direction 0 or 1, and its speed at most one more than the steps |
| CommandMeaning.WantedIs | srcpd/src/ddl_nmra.c:1042-1060 | The functions of a command are the bits of its function word |
| CommandMeaning.UsualStepsAreObeyed | srcpd/src/ddl.c:1401-1419 | With 14, 28 or 128 steps, which are all that is admitted, the decoder has the commanded speed, 127 if it is more, as well |
| CommandMeaning.OtherModeMisses | srcpd/src/ddl_nmra.c:1013-1025 | A packet of another mode has no errors if and only if the low byte of the address is zero, and is then for neither the short nor the long address |
| CommandMeaning.OtherModesAreLost | srcpd/src/ddl_nmra.c:1013-1025 | In a mode other than 1 and 2, no decoder at the address, short or long, takes anything from any command; the packets have no errors if and only if the low byte of the address is zero |
| CommandMeaning.CommandIsIntact | srcpd/src/ddl_nmra.c:1079-1107 | In the modes 1 and 2 no packet of a command has errors |
| CommandStrings.CommandsDoNotJam | srcpd/src/ddl_nmra.c:340-340 | Every string of a command begins with exactly fifteen ones, with which the translation works |
| Track.CommandIsHeard | srcpd/src/ddl_nmra.c:1042-1140 | The bytes of every command, of any mode, are heard as exactly its packets |
| Track.CommandReachesDecoder | srcpd/src/ddl_nmra.c:1042-1140 | From the command to the decoder: the bytes on the line set a decoder at the address to what was commanded, and no other, without a condition on sizes |
| Track.OtherModesReachNobody | srcpd/src/ddl_nmra.c:1013-1025 | The bytes of a command of another mode, for any address, leave every decoder at the address, short or long, as it was |
| Track.SwitchReachesDecoder | srcpd/src/ddl_nmra.c:726-792 | The string of an accessory command is translated uncut and heard as its one packet, in which the decoder finds address, pair, output and state |
| Track.MainTrackReachesDecoder | srcpd/src/ddl_nmra.c:1154-1242 | The string of a main track instruction is translated uncut and heard as its one packet, with the address and the instruction recovered |
| Track.ByteProgramReachesDecoder | srcpd/src/ddl_nmra.c:1154-1187 | From writing a byte on the main track to the decoder at the address, which takes variable and value |
| Track.BitProgramReachesDecoder | srcpd/src/ddl_nmra.c:1208-1242 | From writing a bit on the main track to the decoder at the address, which takes variable, bit and value |
| Dispatch.SentExactly | srcpd/src/ddl.c:1951-1966 | A command for a locomotive of versions 1 to 5 with 14, 28 or 128 steps goes out if and only if its address is not 0, its direction is one of the three and its speed within its steps, or -1, which an emergency halt does not need |
| Dispatch.DispatchReachesDecoderExactly | srcpd/src/ddl.c:1893-1966 | For every command that goes out: the packets on the line have no errors if and only if the version is 1 or 2 or the address above 127; then a decoder at the address has speed 1 backwards for an emergency halt, and otherwise the direction of the command and, for speed s, 0 or s + 1 but at most 127, with its functions, and every other one is as it was; otherwise all are |
| Dispatch.LineIsQueued | srcpd/src/ddl_nmra.c:1128-1137 | The bytes of the entries that the command leaves in the queue are the line that the decoder hears |
| Dispatch.DispatchedPlacesAreDistinct | srcpd/src/ddl.c:1902-1903 | Of the locomotives that reach the routine, whatever their version, no two have the same place in the packet pool, and none that of the idle entry |
| Dispatch.SendNmra | srcpd/src/ddl.c:1893-1966 | What the loop does with the command of an NMRA locomotive, to the pool and the queue |
| MultiFunction.PlacesAreDistinct | srcpd/src/ddl_nmra.c:1066-1070 | Every address of mode 1 or 2 has a place of its own in the packet pool, within its array and never that of the idle entry |
| MultiFunction.OtherModesTakePlaces | srcpd/src/ddl_nmra.c:1066-1070 | For the routine alone: the place of an address of any other mode is that of the idle entry or of an address of mode 1 or 2; of these, its caller reaches only the own places of the addresses up to 127 (`Dispatch.DispatchedPlacesAreDistinct`) |
| MultiFunction.TranslateCommand | srcpd/src/ddl_nmra.c:1042-1126 | The packets of an accepted command are the translations of its strings, never empty and never cut |
| MultiFunction.Deliver | srcpd/src/ddl_nmra.c:1128-1137 | The pool makes the step of an update with both packets, and the queue gets one entry for each string, whatever it holds |
| MultiFunction.EntriesCarry | srcpd/src/ddl_nmra.c:1128-1137 | Every entry is a packet of an NMRA locomotive that begins with its output, says its size and is zero behind it |
| MultiFunction.SlotsCarry | srcpd/src/ddl_nmra.c:1118-1130 | A command with one string fills both packets of its address with it, one with two strings gives them in order |
| MultiFunction.CompNmraMultiFunc | srcpd/src/ddl_nmra.c:1042-1140 | A command is refused exactly outside its ranges, and then changes nothing; otherwise the translations of its strings are the packets of its address in the pool, and are appended to the queue |
| Lengths.ChoiceAtLeast | srcpd/src/ddl_nmra.c:305-338 | How many bits a byte covers at least, for what is known of the next bits |
| Lengths.PacketCosts | srcpd/src/ddl_nmra.c:561-592 | The bytes that a packet and the gap behind it cost at most, wherever the translation comes through |
| Weights.ShortByte | srcpd/src/ddl_nmra.c:305-338 | A byte for two bits with a one behind the first gives way to a dead end: exactly one of the next two bits is a one, and the byte behind it stands for four bits or more |
| Weights.PaidUpTo | srcpd/src/ddl_nmra.c:561-592 | Up to a place from which m bytes are enough, n bits with w ones cost at most m + (3 n - w + 4) / 6 bytes, wherever the translation comes through |
| Weights.PaidUpToSixOnes | srcpd/src/ddl_nmra.c:561-592 | Six ones between zeros, as in the instruction for 128 steps, save half a byte more |
| CommandLengths.CommandsFit | srcpd/src/ddl_nmra.c:1042-1126 | No string of a command is cut at 80 bytes, whatever its address, mode, direction, speed, steps and functions |
| CommandLengths.ColumnsWeigh | srcpd/src/ddl_nmra.c:1093-1107 | A packet for a long address with the instruction for 128 steps has at least ten ones outside of that instruction byte, since the error detection byte makes the ones of each column even |
| Accessory.CompNmraAccessory | srcpd/src/ddl_nmra.c:726-781 | A command is refused exactly outside its ranges; otherwise its string is the frame of its packet |
| Accessory.SwitchIsAcceptedExactly | srcpd/src/ddl_nmra.c:744-750 | A command is accepted if and only if its number is 1 to 2044 and its output and state are 0 or 1 |
| Accessory.SwitchMeansWhatItSays | srcpd/src/ddl_nmra.c:757-771 | An accessory decoder recovers the address modulo 512, the pair, the output and the state |
| Accessory.SwitchesAreDistinct | srcpd/src/ddl_nmra.c:757-771 | No two numbers from 1 to 2044 reach the same pair of the same decoder, for any base address |
| Programming.CalcByteProgramStream | srcpd/src/ddl_nmra.c:894-935 | The bytes of the instruction with start bits and error detection byte |
| Programming.CalcBitProgramStream | srcpd/src/ddl_nmra.c:947-989 | The same for one bit |
| Programming.CalcRegString | srcpd/src/ddl_nmra.c:1398-1430 | The frame of a register instruction after the long preamble |
| Programming.ByteProgramMeansWhatItSays | srcpd/src/ddl_nmra.c:894-935 | A decoder recovers variable, value and whether to write or verify if and only if the number is at most 1023; the caller lets 1024 pass |
| Programming.BitProgramMeansWhatItSays | srcpd/src/ddl_nmra.c:947-989 | A decoder recovers variable, bit, value and whether to write or verify |
| Programming.RegisterMeansWhatItSays | srcpd/src/ddl_nmra.c:1398-1430 | A decoder recovers register, value and whether to write or verify |
| Programming.WriteCvbytePom | srcpd/src/ddl_nmra.c:1154-1187 | Programming a byte on the main track, in any mode: refused exactly outside the ranges, otherwise the frame of the packet |
| Programming.WriteCvbitPom | srcpd/src/ddl_nmra.c:1208-1242 | The same for one bit |
| Programming.MainIsAcceptedExactly | srcpd/src/ddl_nmra.c:1163-1172 | Address and variable are accepted if and only if the address is 1 to 127 for mode 1 and 1 to 10239 otherwise, and the variable 2 to 1024 |
| Programming.MainTrackMeansWhatItSays | srcpd/src/ddl_nmra.c:1154-1242 | The packet is heard, intact, with the address and the instruction recovered; variable 1 cannot be reached |
| ServiceMode.ItemIsFine | srcpd/src/ddl_nmra.c:1268-1291 | Every string after the long preamble is translated into at most 21 bytes, or 26 for three bytes of instruction, none of them zero |
| ServiceMode.SequenceIsHeard | srcpd/src/ddl_nmra.c:1473-1517 | Any sequence of such packets on the line is heard as exactly these packets, each intact |
| ServiceMode.RegisterIsHeard | srcpd/src/ddl_nmra.c:1470-1514 | What a decoder understands of the sequence for a register: more idle packets, resets, presets and instructions than the comments in the source ask for |
| ServiceMode.PageIsHeard | srcpd/src/ddl_nmra.c:1571-1601 | The same of the sequence through the page register |
| ServiceMode.ByteIsHeard | srcpd/src/ddl_nmra.c:1700-1721 | The same of the sequence for a variable |
| ServiceMode.BitIsHeard | srcpd/src/ddl_nmra.c:1807-1816 | The same of the sequence for a bit |
| ServiceMode.Repeat | srcpd/src/ddl_nmra.c:1473-1499 | A loop of strcat appends the packet as often as it runs, within the buffer |
| ServiceMode.Programmer.SmInit | srcpd/src/ddl_nmra.c:1276-1291 | The three fixed packets are the reset, idle and page preset packets |
| ServiceMode.Programmer.Phregister | srcpd/src/ddl_nmra.c:1447-1517 | A decoder on the line understands 30 idle packets, 5 resets and 20 times that the register is verified; or 50 idle packets, 6 resets, 10 page presets, 24 resets, 44 times that the register is written, and 24 resets; the computed size is the true length and fits 4096 bytes |
| ServiceMode.Programmer.Page | srcpd/src/ddl_nmra.c:1539-1600 | It understands 50 idle packets, 6 resets, 10 times that register 5 is written with the page, 24 resets, 30 times that the register is written or verified, and 24 resets |
| ServiceMode.Programmer.DirectCvbyte | srcpd/src/ddl_nmra.c:1661-1725 | It understands 30 idle packets, 15 or for verifying 5 resets, and 20 times that the variable is written or verified, 1025 as 1; a short address in variable 1 makes the detour over the register |
| ServiceMode.Programmer.DirectCvbit | srcpd/src/ddl_nmra.c:1769-1820 | It understands 30 idle packets, 15 resets, and 20 times that the bit is written or verified |
| Ring.EntriesAfterWrite | srcpd/src/ddl.c:141-148 | Writing at one index of a ring appends to what lies between the indexes, across the end of the array, and empties a full ring |
| Ring.EntriesAfterRead | srcpd/src/ddl.c:175-183 | Moving the other index removes the first entry |
| PacketQueue.Queue.constructor | srcpd/src/ddl.c:88-123 | An empty queue |
| PacketQueue.Queue.Add | srcpd/src/ddl.c:130-157 | The entry, its packet padded with zeros, goes to the end of the queue |
| PacketQueue.Queue.Get | srcpd/src/ddl.c:159-192 | The first entry with all its fields, or nothing if there is none |
| PacketQueue.QueueIsFifo | srcpd/src/ddl.c:130-192 | Over any run of calls that never finds QSIZE - 1 entries outstanding, what was got, followed by what is left, is what was added, in order |
| PacketQueue.AddKeepsExactlyWhen | srcpd/src/ddl.c:141-148 | An entry is added if and only if fewer than QSIZE - 1 are outstanding; otherwise all are lost |
| PacketQueue.EnqueuesKeepExactlyWhen | srcpd/src/ddl.c:141-148 | Several entries and all that is outstanding are kept if and only if there is room for all of them |
| PacketPool.Pigeonhole | srcpd/src/ddl.h:51-80 | A list of different addresses in a range is no longer than the range, so the arrays suffice |
| PacketPool.ListedAfterUpdate | srcpd/src/ddl.c:535-543 | What the counter and the array mean after an update, with the idle entry that the first address displaces |
| PacketPool.MaerklinPacketPool.constructor | srcpd/src/ddl.c:441-493 | The idle entry with its packets |
| PacketPool.MaerklinPacketPool.Update | srcpd/src/ddl.c:500-544 | The address is known, at the end if new, and has the packets given; all others keep theirs |
| PacketPool.NmraPacketPool.constructor | srcpd/src/ddl.c:598-611 | An empty pool |
| PacketPool.NmraPacketPool.Find | srcpd/src/ddl.c:638-641 | The search, which reads one cell too many, finds exactly the known addresses |
| PacketPool.NmraPacketPool.Update | srcpd/src/ddl.c:630-680 | The address is known, at the end if new, and has the packets given; all others keep theirs |
| DdlData.Data.constructor | srcpd/src/ddl.c:1687-1741 | Both pools hold their idle entries, the NMRA one the translation of the idle string, and the cursors stand at the start |
| DdlData.IdleIsHeard | srcpd/src/ddl.c:584-620 | The translation of the idle string is not cut and is heard as the idle packet |
| DdlData.Data.UpdateMaerklin | srcpd/src/ddl.c:500-544 | The state makes the step of an update in `RefreshCycle` |
| DdlData.Data.UpdateNmra | srcpd/src/ddl.c:630-680 | The state makes the step of an update in `RefreshCycle` |
| DdlData.Data.RefreshLoco | srcpd/src/ddl.c:946-1011 | The state makes the step of a turn, and the packet under the cursor is sent with its type |
| Refresh.RunKeepsPool | srcpd/src/ddl.c:500-680 | Over any run of updates and turns, no address is known twice, every one has all its packets, and the cursor stays valid |
| Refresh.KnownExactly | srcpd/src/ddl.c:535-543 | After any run, the addresses known are exactly those updated, in the order of their first update; idle ones in front are displaced |
| Refresh.LatestPackets | srcpd/src/ddl.c:519-523 | After any run, every address has the packets of its last update |
| Refresh.SendsAreLatest | srcpd/src/ddl.c:972-1006 | Every packet that is sent in a run is that of the last update of its address before the turn |
| Refresh.RefreshIsFair | srcpd/src/ddl.c:972-1006 | With n addresses known at the end of a run and slots * n turns in it, every packet of every address known at its start is sent, whatever is updated in between; as it is, if its address is not updated |
| RefreshCycle.TurnsAlternate | srcpd/src/ddl.c:1009-1010 | With both protocols enabled, the turns alternate strictly |
| RefreshCycle.PoolsSendApart | srcpd/src/ddl.c:946-1011 | With one or both enabled, what is sent from one pool is what that pool alone would send for its own turns and updates |
| RefreshCycle.BothPoolsAreServed | srcpd/src/ddl.c:946-1011 | With both enabled, 10 turns for each Maerklin address and 4 for each NMRA address send all packets of the addresses of the one and the other, as they are if not updated |
| RefreshCycle.OnePoolIsServed | srcpd/src/ddl.c:946-1011 | With one enabled, 5 turns for each Maerklin address, or 2 for each NMRA address, are enough |
| FeedbackBoard.ReportKeepsBoard | srcpd/src/srcp-fb.c:166-244 | A report keeps the invariant of the next row |
| FeedbackBoard.RunKeepsBoard | srcpd/src/srcp-fb.c:166-427 | In every run, a contact that is marked is shown as closed and has an opening in the queue |
| FeedbackBoard.RunIsLogged | srcpd/src/srcp-fb.c:36-42 | In every run, replaying the info messages from the states at the start gives the states at the end |
| FeedbackBoard.RunKeepsOrder | srcpd/src/srcp-fb.c:113-146 | Under a clock that does not go back, the queue stays in the order of time |
| FeedbackBoard.CheckExactly | srcpd/src/srcp-fb.c:371-427 | A check resets exactly the marked contacts with an opening that is due, to the time of their first opening in the queue, touches no other, and leaves nothing in the queue that is due |
| FeedbackProperties.OpeningsAreShownInTime | srcpd/src/srcp-fb.c:188-213 | In every run with reports of 0 and 1 and a minimum time, every message of an opening goes out that time or more after a report of this opening, whose time it bears |
| FeedbackProperties.ClosingIsShown | srcpd/src/srcp-fb.c:226-236 | A closing of an open contact is shown with its value and its time, in the contact and by one message, and changes nothing else |
| FeedbackProperties.OpeningIsShownOrWaits | srcpd/src/srcp-fb.c:188-213 | An opening is shown with its time if there is no minimum time, and otherwise queued with it |
| FeedbackProperties.ClosingsAreShownAtOnce | srcpd/src/srcp-fb.c:226-236 | In every run with reports of 0 and 1, every message of a closing goes out with the report of it and bears its time |
| FeedbackProperties.CancelsExactlyWhen | srcpd/src/srcp-fb.c:215-219 | A report cancels an opening that waits if and only if it is neither 0 nor the state that is shown |
| FeedbackProperties.NothingIsCancelled | srcpd/src/srcp-fb.c:215-219 | In every run with reports of 0 and 1, a report on a contact with an opening that waits changes no contact and sends no message |
| FeedbackProperties.ShowsLastReportExactlyWhen | srcpd/src/srcp-fb.c:181-240 | A contact without an opening that waits shows its last report if and only if that was not a closing reported while one waited |
| FeedbackProperties.BounceIsShown | srcpd/src/srcp-fb.c:181-240 | Closing, opening and closing again within the minimum time ends as open |
| FeedbackProperties.OpensEarlyExactlyWhen | srcpd/src/srcp-fb.c:181-240 | A closed contact that opens is shown as open by a check before the minimum time has passed if and only if an opening of it that was queued before is due |
| FeedbackProperties.QuietUntil | srcpd/src/srcp-fb.c:371-427 | In every run, with no opening of a contact in the queue that is older than t, no message shows it as open before t and the minimum time |
| FeedbackProperties.NothingLeftOverNothingEarly | srcpd/src/srcp-fb.c:181-240 | In every run, an opening of a contact that has none left over in the queue is not shown before the minimum time has passed |
| FeedbackProperties.LeftOverOpeningIsShown | srcpd/src/srcp-fb.c:371-427 | A run in which that happens after one tick |
| Feedback.ModuleShowsItsBits | srcpd/src/srcp-fb.c:247-283 | Without a minimum time, each contact of a module of so many ports shows its bit, counted from either end, and no other contact changes |
| Feedback.Bus.constructor | srcpd/src/srcp-fb.c:309-350 | All contacts open, nothing waits |
| Feedback.Bus.GetFB | srcpd/src/srcp-fb.c:148-159 | The state and the time of a contact, or no data outside the ports |
| Feedback.Bus.QueueResetFB | srcpd/src/srcp-fb.c:113-146 | The opening goes to the end of the queue |
| Feedback.Bus.UpdateFB | srcpd/src/srcp-fb.c:166-244 | The state makes the step of a report, in all branches, and ports outside the range are refused |
| Feedback.Bus.UnqueueNextFB | srcpd/src/srcp-fb.c:91-111 | The first opening leaves the queue |
| Feedback.Bus.CheckResetFB | srcpd/src/srcp-fb.c:371-427 | The loop ends, and the state makes the step of a check by the last reading of the clock, although the clock is read for every opening |
| Feedback.Bus.SetFBmodul | srcpd/src/srcp-fb.c:247-283 | The state makes the reports of all contacts of the module in turn |
| SelectrixBus.SelectInStep | srcpd/src/selectrix.c:379-409 | Selecting makes the interface select the bus of the address, and keeps program and interface in step |
| SelectrixBus.StoreInStep | srcpd/src/selectrix.c:452-468 | Writing a cell and its shadow keeps them in step |
| SelectrixBus.ConfigureInStep | srcpd/src/selectrix.c:336-376 | The configuration byte keeps them in step |
| SelectrixBus.RunInStep | srcpd/src/selectrix.c:646-878 | After any run of commands for ordinary cells, the interface has the bus selected that the flag says, and every ordinary cell of it, of 256 with two buses and of 128 with one, holds what the program remembers |
| SelectrixBus.ControlCellExactly | srcpd/src/selectrix.c:379-468 | After a command for the control cell of a bus they are in step if and only if bit 1 of the data names the bus of the address, with one bus or two |
| SelectrixBus.OneBusUpperExactly | srcpd/src/selectrix.c:452-468 | With one bus, after a command for an address from 128 on they are in step if and only if the data are those remembered for the lower address |
| SelectrixBus.LocoDataMeans | srcpd/src/selectrix.c:728-757 | A decoder finds speed, direction, light and function in its cell; an emergency stop keeps the direction |
| SelectrixBus.SwitchDataMeans | srcpd/src/selectrix.c:774-848 | Setting a port changes its bit to the action and no other bit of a port |
| SelectrixDecoder.LocoIsObeyed | srcpd/src/selectrix.c:715-766 | After a command for an ordinary cell, the cell of the interface says backward for direction 0, forward for 1 and as before for any other; the speed, which is 0 for any other; light and function as bits 0 and 1 of the functions; no other ordinary cell changes |
| SelectrixDecoder.SwitchIsObeyed | srcpd/src/selectrix.c:767-857 | After a command for a port, this port of the cell has the action, and no other port or ordinary cell changes |
| SelectrixDecoder.ReadAsks | srcpd/src/selectrix.c:432-449 | A read asks the interface for the cell of the address, on its bus |
| SelectrixDecoder.PowerIsObeyed | srcpd/src/selectrix.c:674-692 | Power puts 128 or 0 into cell 127, and switches protocol and reports of an interface of Rautenhaus on or off as the flag says; no ordinary cell changes |
| SelectrixDecoder.ConfigurationNumber | srcpd/src/selectrix.c:336-376 | The bits of the configuration byte, each by the flags that set it |
| Selectrix.Bus.SelRautenhaus | srcpd/src/selectrix.c:379-409 | The flags and the bytes written are those of the function on values |
| Selectrix.Bus.ConfRautenhaus | srcpd/src/selectrix.c:336-376 | The same for the configuration |
| Selectrix.Bus.CommandReadSXbus | srcpd/src/selectrix.c:432-449 | The same for a read request |
| Selectrix.Bus.WriteSXbus | srcpd/src/selectrix.c:452-468 | The same for a write |
| Selectrix.Bus.CommandLoco | srcpd/src/selectrix.c:715-766 | The same for a locomotive, with the shadow |
| Selectrix.Bus.CommandSwitch | srcpd/src/selectrix.c:767-857 | The same for switches and signals, with the shadow |
| Selectrix.Bus.CommandPower | srcpd/src/selectrix.c:674-692 | The same for the power |
| LocoNet.DriverReadsPackets | srcpd/src/loconet.c:398-459 | Packets of two, four or six bytes for opcodes from 0x80, 0xa0 and 0xc0 on, or as many as the second byte says, that arrive byte by byte, with any number of empty polls in between, are returned by the calls of the driver as they were and in order, whatever its buffer holds behind the bytes that wait, and no call leaves a buffer |
| LocoNet.OpcodeTells | srcpd/src/loconet.c:429-448 | The masks of the driver find the start and the length of every such packet |
| LocoNet.ReadWithin | srcpd/src/loconet.c:398-459 | One call in the middle of a packet meets what the driver requires, appends, and returns the packet exactly at its last byte |
| LocoNet.FoundIsPolled | srcpd/src/loconet.c:419-458 | When what waits begins with the start of a packet, the stale bytes behind it in the buffer do not matter |
| LocoNet.ChecksumCloses | srcpd/src/loconet.c:388-396 | The exclusive or of all bytes is 0xff if and only if the last is the checksum of the others |
| LocoNet.LnChecksum | srcpd/src/loconet.c:388-396 | The loop computes the checksum |
| LocoNet.Driver.LnReadSerial | srcpd/src/loconet.c:398-459 | One call: the byte goes to the buffer; the packet at the first start byte, if complete, goes to the caller and empties the buffer, and everything else is as it was |
| LocoNet.Driver.LnSendmessage | srcpd/src/loconet.c:649-658 | The packet is closed in place, so that the exclusive or of its bytes is 0xff, and written unless it is the idle opcode |

## Left out

- TranslateV3.TranslateBitstream2PacketstreamV3: requires a string that does not jam, since the loop of the source does not end on most of the others; `PropertiesV3.WorksExactlyWhen` covers both sides with a count of rounds.
- MultiFunction.CompNmraMultiFunc: is modelled with version 3 of the translation only.
- CommandMeaning.CommandMeansWhatItSays: is about modes 1 and 2; for all others `CommandMeaning.OtherModesAreLost` says that nothing arrives, and `Dispatch.DispatchReachesDecoderExactly` which ones come up.
- Programming.MainTrackMeansWhatItSays: is about modes 1 and 2, which are all that its caller at `srcpd/src/ddl.c:2011-2028` uses; `CommandMeaning.OtherModeMisses` covers the packets of the others.
- DdlData.Data.constructor: sets up both pools whatever is enabled; the source leaves the pool of a protocol that is not enabled empty and never reads it.
- PacketQueue.Queue.Add: the caller's packet has at least as many bytes as the size says, and no more than a queue entry holds.
- PacketPool.NmraPacketPool.Update: NMRA addresses of the pool start at 1, since the search takes the empty cell behind the list for address 0; packets fit their fields.
- Feedback.Bus.QueueResetFB: requires a queue that is not full; the source waits until it is not.
- Feedback.Bus.SetFBmodul: the flags of the bus have become the number of ports and the order of the bits.
- LocoNet.Driver.LnReadSerial: requires that the search for the start of a packet ends within the buffer and that the packet fits that of the caller, which `LocoNet.DriverReadsPackets` shows for well-formed traffic; how noise in front of a packet is skipped by way of stale bytes is stated by its contract, but no property of it is proved.
- LocoNet.DriverReadsPackets: the bytes are those of well-formed packets from the first on.
- SelectrixBus.RunInStep: commands for addresses that are not ordinary are excluded, and the program and the interface start in step; the source clears only the first 112 cells of its shadow.
- RefreshCycle.BothPoolsAreServed: like `RefreshCycle.OnePoolIsServed`, counts turns from a state in which the pool knows an address that is not the idle one.
- Version 1 of the translation, and the choice of the version by configuration.
- The bits that `infoFB` and other routines print, and the writing of messages to clients.
- Serial lines, sockets, timers, logging and the configuration files: times and bytes that arrive are parameters, bytes that leave are results.
- Threads and mutexes: each call is one step.
- Running out of memory in `update_NMRAPacketPool`, which would leave its mutex locked.
- Acknowledgements of programming, and the arithmetic of `calc_page`.
- The Maerklin encoder, the accessory queue of `srcp-ga.c`, the answers of Selectrix feedback modules and the programming of Selectrix decoders, and the other bus drivers.
