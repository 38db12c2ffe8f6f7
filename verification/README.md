# GNSS signal generator: message codes, streams, commands and interpolation

The project models, in Dafny, the parts of a GNSS signal generator and its receivers in which the hard
arithmetic and the long-running state lie, and proves what they promise for all inputs.

* **Channel codes and framing.** The rate-1/2, constraint-length-7 code with its Viterbi and free decoders
  (`Conv`, `Distance`, `Viterbi`, `Optimality`, `FreeDecoder`), CRC-24Q (`Crc24q`), Galileo I/NAV pages (`Inav`),
  GPS LNAV subframes with parity chained over words (`Lnav`), GPS CNAV messages (`Cnav`), BeiDou D1 subframes with
  interleaved BCH(15,11,1) codewords (`BdsD1`) and GLONASS strings with the KX code over a relative code
  (`Glonass`).
* **Stream restart.** Whether a stream started later carries on the one started earlier, and what a receiver gets
  from a stream of built messages, system by system (`Restart`).
* **The FPGA command generator and its wire format.** Fixed-point carrier and code words against real-valued
  trajectories, the sign window, oscillator ramp and fading (`CmdWords`, `CmdSign`, `CmdGen`); channel records as
  bit fields and the record stream with its resynchronising reader (`Fields`, `CmdFmt`, `CmdStream`).
* **Precise orbits.** Neville's tableau with its derivative, merging of products, the interpolation window
  (`Polynomials`, `Precise`, `Orbit`).
* **The tracker's streaming loop** (`Tracker`) and **the epoch grids** of broadcast reference times (`EpochGrid`).

`Bits`, `Reals` and `Widths` hold what several of them share.

Code that works step by step in the repository is written as methods with loops, arrays and classes, each proved
against a function of its inputs or of its old state; the theorems are lemmas about those functions. Bits are
`bool`, bit lists are written most significant bit first, registers of the codes are datatypes or bit lists of
their width. Real numbers stand for the repository's floating-point numbers; carrier phases are in cycles, not
radians. `Lnav` states its theory for any set of parity equations that meets one condition and shows that the GPS
equations do; `CmdStream` does the same for any channel record format and the engine's one.

Where the code and its own words differ, the model follows the code:

* A comment in `backend/analysis/_viterbi.py` gives the generator 0o117 as decimal 73; it is 79, and the code
  uses 0o117.
* The docstring of `merge_sp3` in `backend/ephem/precise.py` calls the rows de-duplicated; with a single product
  they are passed through as they are, so coinciding epochs reach the tableau, which then fails. The exact
  condition is in `Orbit.MergedIncreasing`, a product it fails for in `Orbit.RepeatedEpochFails`, the guarantee for
  two products or more in `Orbit.MergedState`.
* The window of `get_state` is described as centred on the interval containing the epoch; with order 0 it is the
  single sample after the epoch. `Orbit.WindowBrackets` gives the exact condition, `Orbit.OrderZeroMisses` a case.
* The docstring of `decode_subframe` in `backend/analysis/bds_d1_decode.py` says that `bch_ok` tells whether all
  codewords had valid parity. With correction on, as the receiver uses it, it is always true, and two wrong bits in a
  codeword are mistaken for one wrong bit elsewhere: `BdsD1.StatusMeaning` and `BdsD1.TwoErrorsMistaken`.
* A restarted CNAV stream does not continue its first twelve symbols in general; `Restart.CnavRestart` gives the
  exact condition, `Restart.CnavRestartDiffers` messages it fails for.
* The command generator computes the code increment from the chip rate whatever its sign, and the packer takes only
  0 to 2^43: `CmdGen.RecordPacked` gives the exact condition, `CmdGen.RefusedRate` rates it fails for.
* A record read from arbitrary words may hold a phase at or beyond the code length, which the packer refuses;
  `CmdFmt.ChannelBack` gives the exact condition, `CmdFmt.FarRefused` words it fails for.

`dafny verify dfyconfig.toml` checks the whole project.

## Model

| member | source | states |
|---|---|---|
| Conv.Encoder.Push | backend/analysis/sbas_encode.py:79-89 | an encoder object sends exactly the code of its data continued from the register left by the call before, and leaves the register the whole history implies |
| Conv.TapsAreGenerators | backend/analysis/inav_encode.py:94-104 | the two outputs are the parities of the 7-bit register masked with 0o117 and 0o155, the second inverted where the system inverts it |
| Conv.LastSixBits | backend/analysis/cnav_encode.py:57-70 | after six bits the state is those six bits, whatever came before |
| Conv.EncodeConcat | backend/analysis/cnav_encode.py:57-70 | encoding two pieces in turn is encoding them as one: the six-bit state is all the memory there is |
| Distance.FreeDistance | backend/analysis/_viterbi.py:36-47 | two different inputs that share their start and end state give codewords at least 10 symbols apart, at every length |
| Distance.FreeDistanceReached | backend/analysis/_viterbi.py:36-47 | 10 is reached from every input: changing one bit that six more follow moves the symbols by exactly 10 and leaves the end state |
| Distance.Observable | backend/analysis/_viterbi.py:36-47 | six or more symbol pairs determine the start state and every input bit |
| Distance.FivePairsAmbiguous | backend/analysis/_viterbi.py:36-47 | five pairs do not: two different inputs with the same ten symbols |
| Distance.Transparent | backend/analysis/cnav_encode.py:57-70 | complementing state and input complements the output |
| Viterbi.BranchMetrics | backend/analysis/_viterbi.py:55-80 | the two tables hold, for every received pair and every state, the Hamming cost of the transition into it from either predecessor |
| Viterbi.Step | backend/analysis/_viterbi.py:202-208 | one add-compare-select over 64 states turns the path metrics of a prefix into those of the prefix one pair longer and records for each state the predecessor it kept |
| Viterbi.Forward | backend/analysis/_viterbi.py:189-208 | after the forward pass the metric of every state is that of the whole stream and every step's survivors are recorded |
| Viterbi.WalkBack | backend/analysis/_viterbi.py:210-216 | walking the recorded survivors back in place writes the bits of the traced path |
| Viterbi.Decode | backend/analysis/_viterbi.py:150-216 | the imperative decoder computes the decoding function, for every start and end option and every length, odd lengths included |
| Optimality.LowerBound | backend/analysis/_viterbi.py:193-208 | no trellis path from an allowed start costs less than the metric of the state it ends in |
| Optimality.Achieved | backend/analysis/_viterbi.py:193-216 | the traceback from a reached state is an allowed path that costs exactly its metric |
| Optimality.MaximumLikelihood | backend/analysis/_viterbi.py:150-216 | if any path respects the start and end options, the decoded bits are those of one such path and no such path is nearer to the received symbols in Hamming distance |
| Optimality.EveryEndReachable | backend/analysis/_viterbi.py:210-216 | six pairs suffice to reach every end state, so the assumption of the optimality theorem holds for every stream that long |
| Optimality.FourErrorsCorrected | backend/analysis/_viterbi.py:150-216 | with start and end state 0, any data that ends in six zero bits is returned exactly from symbols with up to four errors anywhere |
| Optimality.FiveErrorsMistaken | backend/analysis/_viterbi.py:150-216 | four is the limit: at every length from seven bits on there are data and five symbol errors that are not corrected |
| Optimality.UnknownStart | backend/analysis/_viterbi.py:193-216 | from a clean stream of six or more pairs and an unknown sender state the transmitted bits come back exactly |
| Optimality.InvertedStream | backend/analysis/_viterbi.py:193-216 | the fully inverted clean stream decodes to the complement |
| Optimality.SixPairsNeeded | backend/analysis/_viterbi.py:193-216 | with five pairs no decoder of this kind is exact for every sender |
| FreeDecoder.BuildTable | backend/analysis/_viterbi.py:87-106 | every entry of the 64-state table is the chosen bit and the next state for its received pair, the no-match pair included |
| FreeDecoder.TableDecode | backend/analysis/_viterbi.py:118-147 | the table decoder computes the same recovery function as the search decoder |
| FreeDecoder.SearchDecode | backend/analysis/inav_encode.py:384-403 | the decoder that tries both bits in a 7-bit register returns, on every stream of whole pairs, codeword or not, what the table decoder returns |
| FreeDecoder.EncodingUndone | backend/analysis/cnav_decode.py:35-51 | free decoding undoes encoding from the zero state and ends in the encoder's state |
| FreeDecoder.ReencodeDetects | backend/analysis/_viterbi.py:118-147 | re-encoding the recovered bits gives the symbols back exactly when they are a codeword |
| Crc24q.BitSerial | backend/analysis/inav_encode.py:73-87 | the bit-serial loop from an empty register computes the checksum |
| Crc24q.SerialFrom | backend/analysis/sbas_encode.py:59-69 | the bit-serial loop computes the register function, one shift and conditional reduction per bit |
| Crc24q.BuildTable | backend/analysis/_crc.py:15-25 | each of the 256 entries is its byte shifted through the register |
| Crc24q.ByteTable | backend/analysis/_crc.py:31-75 | the byte-table loop with up to seven residual bits equals the bit-serial register for every length |
| Crc24q.ByteStep | backend/analysis/_crc.py:49-62 | feeding eight bits is one look-up by the top byte of the register |
| Crc24q.Check | backend/analysis/_crc.py:78-104 | the check accepts exactly the blocks whose last 24 bits are the checksum of the rest |
| Crc24q.RemainderZero | backend/analysis/_crc.py:31-104 | a message followed by 24 bits leaves remainder zero exactly when they are its checksum |
| Crc24q.BurstDetected | backend/analysis/_crc.py:78-104 | no two different blocks that pass differ only inside a window of 24 consecutive bits |
| Crc24q.GeneratorUndetected | backend/analysis/_crc.py:31-75 | 24 is the limit: adding the 25-bit generator is never detected |
| Inav.InterleaverUndone | backend/analysis/inav_encode.py:107-123 | the 30 by 8 block interleaver and deinterleaver are mutual inverses on 240 symbols |
| Inav.CheckBits | backend/analysis/inav_decode.py:71-99 | page flags, tail, word type, word, authentication bits and checksum of two decoded halves, or rejection |
| Inav.DecodePage | backend/analysis/inav_decode.py:102-125 | sync test, deinterleaving, free decoding first and the Viterbi decoder only when that fails its checksum |
| Inav.DecodeMessages | backend/analysis/inav_decode.py:128-158 | the scan of a stream, upright and then inverted, as a function of the symbols |
| Inav.PageRoundTrip | backend/analysis/inav_encode.py:310-353 | every page built from any 128 word bits and any 40 authentication bits decodes to them |
| Inav.PageCorrected | backend/analysis/inav_decode.py:102-125 | with up to four wrong symbols in each half the decoder returns the free decoding if its checksum passes and otherwise exactly the page sent |
| Inav.StreamRoundTrip | backend/analysis/inav_decode.py:128-158 | from the first symbol every page of a stream is reported in order with its position, type, word and authentication bits; an incomplete last page is not |
| Inav.StreamInverted | backend/analysis/inav_decode.py:128-158 | with the carrier inverted every page is reported too, unless the inverted symbols themselves hold a page, and then those are reported |
| Lnav.GpsValid | backend/analysis/lnav_encode.py:18-27 | the GPS parity equations meet the condition the theory rests on |
| Lnav.Code.ParityLoop | backend/analysis/lnav_encode.py:45-57 | the six parity bits are the exclusive sums over the listed source bits with D29* or D30* folded in |
| Lnav.Code.SolveUnique | backend/analysis/lnav_encode.py:70-85 | for every 22 bits and every D29*, D30* exactly one pair of trailing bits zeroes D29 and D30 |
| Lnav.Code.SolveTrailing | backend/analysis/lnav_encode.py:143-150 | the search over the four candidate pairs always finds that pair |
| Lnav.Code.SendItems | backend/analysis/lnav_encode.py:109-140 | the subframe loop sends each word on the last two bits of the word before |
| Lnav.Code.TransmitChecks | backend/analysis/lnav_encode.py:109-140 | every word of a transmission passes parity in its chain and its source bits are recovered |
| Lnav.Code.EndsAtZero | backend/analysis/lnav_encode.py:109-140 | a subframe ends in two zero bits, so the next one starts again from (0, 0) |
| Lnav.Code.CheckWords | backend/analysis/lnav_decode.py:57-65 | the ten-word parity loop of the receiver decides exactly the chained parity predicate |
| Lnav.Code.FindFrame | backend/analysis/lnav_decode.py:37-78 | the index-moving scan computes the scan function on every bit list |
| Lnav.Code.SourceWordsBack | backend/analysis/lnav_decode.py:27-34 | the receiver recovers the ten source words the builder used |
| Lnav.Code.StreamFound | backend/analysis/lnav_decode.py:37-78 | on any list of subframes, sent upright or negated, the scan returns every whole subframe in order with position, id, count and source words |
| BdsD1.BchEncode | backend/analysis/bds_d1_encode.py:67-76 | the shift-register loop computes the codeword function |
| BdsD1.BchSyndrome | backend/analysis/bds_d1_decode.py:48-56 | in-place long division leaves the remainder of the word |
| BdsD1.SyndromeZero | backend/analysis/bds_d1_decode.py:48-61 | register encoder and long division agree: the syndrome is zero exactly when re-encoding gives the word back |
| BdsD1.DecodeCodeword | backend/analysis/bds_d1_decode.py:64-77 | flipping the bit the syndrome names, in place |
| BdsD1.NearestCodeword | backend/analysis/bds_d1_decode.py:29-77 | every 15 bits lie within one bit of a codeword and decode to it: with correction on success is always reported, and a correction exactly when the bits were no codeword |
| BdsD1.CorrectsExactly | backend/analysis/bds_d1_decode.py:29-77 | the eleven information bits of a codeword come back exactly when at most one of its bits was received wrong |
| BdsD1.TwoErrorsMistaken | backend/analysis/bds_d1_decode.py:29-77 | two wrong bits anywhere in any codeword give other information bits under a report of success |
| BdsD1.InterleaveUndone | backend/analysis/bds_d1_encode.py:85-98 | the bit interleaver of two codewords is undone by taking every second bit |
| BdsD1.BuildSubframe | backend/analysis/bds_d1_encode.py:193-204 | the word loop builds the subframe function of id, payload and second of week |
| BdsD1.DecodeSubframe | backend/analysis/bds_d1_decode.py:120-163 | length and preamble tests, then word after word with accumulated status |
| BdsD1.SubframeExact | backend/analysis/bds_d1_decode.py:120-163 | the 224 information bits come back exactly when no unprotected bit is wrong and at most one bit in each of the 19 codewords is |
| BdsD1.StatusMeaning | backend/analysis/bds_d1_decode.py:120-163 | with correction on the status flag is set whatever was received; with it off, exactly when the bits received are those sent for the bits returned, which with correction the count of corrected codewords tells |
| BdsD1.SubframeRoundTrip | backend/analysis/bds_d1_decode.py:120-163 | with at most one wrong bit in each of the 19 codewords all 224 information bits, the id and the second of week come back |
| BdsD1.SentIsNearlyRight | backend/analysis/bds_d1_encode.py:193-204 | the transmitted subframe itself meets that condition |
| BdsD1.DecodeMessages | backend/analysis/bds_d1_decode.py:166-196 | the scan of a stream, upright and then inverted, with the tests of subframe id and of the count of corrected codewords, as a function of the symbols |
| BdsD1.StreamRoundTrip | backend/analysis/bds_d1_decode.py:166-196 | from a subframe boundary every whole subframe is reported in order with its id, second of week and information bits, when at most four codewords of each have one wrong bit, wherever the symbols end; with the other carrier sign the same, unless those symbols hold a subframe |
| Glonass.HammingCheck | backend/analysis/glo_str_encode.py:123-136 | the receiver's check loop decides exactly the acceptance predicate |
| Glonass.BuildString | backend/analysis/glo_str_encode.py:101-120 | the check-bit loops write the string function of the 76 data bits |
| Glonass.EncodedAccepted | backend/analysis/glo_str_encode.py:101-136 | every encoded string is accepted |
| Glonass.Separated | backend/analysis/glo_str_encode.py:77-93 | any two of the 85 bit places are told apart by one of the seven check sets |
| Glonass.DistanceFour | backend/analysis/glo_str_encode.py:77-136 | two different accepted strings differ in at least four places |
| Glonass.FourReached | backend/analysis/glo_str_encode.py:77-136 | four is reached from every accepted string: one data bit, the two check bits over it and the overall parity bit give another accepted string |
| Glonass.RelativeLoop | backend/analysis/glo_str_encode.py:233-241 | the running exclusive or computes the relative code |
| Glonass.RelativeUndone | backend/analysis/glo_str_encode.py:233-273 | the relative code of a string that starts with the idle bit is undone |
| Glonass.WrongBitRejected | backend/analysis/glo_str_encode.py:271-273 | one wrong relative-code bit anywhere in an accepted string is always rejected |
| Glonass.SyncAndDecode | backend/analysis/glo_str_decode.py:219-251 | the nested search loops return the frame of the first best offset and phase |
| Glonass.SyncSignImmune | backend/analysis/glo_str_decode.py:219-251 | an inverted symbol stream gives the same candidate and the same strings |
| Glonass.CleanStreamDecoded | backend/analysis/glo_str_decode.py:219-251 | a clean stream of strings, with either carrier sign and ending anywhere, gives back under its number every string whose data it holds, and nothing else |
| Cnav.FieldBack | backend/analysis/cnav_encode.py:42-50 | a field comes back as the nearest whole number of units held within its limits, within half a unit of every value between them, negative values included |
| Cnav.DecodePayload | backend/analysis/cnav_decode.py:77-83 | the offset-moving loop reads the fields of a layout one behind the other |
| Cnav.PayloadBack | backend/analysis/cnav_decode.py:63-83 | every field of any layout comes back from its place in the payload |
| Cnav.MessageBack | backend/analysis/cnav_encode.py:158-164 | a built message is read back with type, satellite, count, alert flag and payload |
| Cnav.DecodeMessages | backend/analysis/cnav_decode.py:86-115 | four readings by carrier sign and pair phase, the first one that holds a message wins |
| Cnav.StreamDecoded | backend/analysis/cnav_decode.py:86-115 | symbols that start on a message boundary and end anywhere, from any encoder state, give back every whole message in order |
| Cnav.InvertedReceived | backend/analysis/cnav_decode.py:86-115 | what comes from the inverted symbols of such a stream: whatever messages the complement of the bits sent holds, else whatever the pairs cut one symbol late hold, else every message sent |
| Cnav.InvertedSingle | backend/analysis/cnav_decode.py:86-115 | a message alone, whatever it says, is always read from inverted symbols: neither upright reading can hold one |
| Restart.StreamsContinue | backend/analysis/nav_encoders.py:174-207 | two streams of one schedule of equal blocks agree, at the offset of their first blocks, wherever both have symbols |
| Restart.InavStream | backend/analysis/inav_encode.py:409-444 | the page loop sends the schedule by absolute second, word types by page of the 30 s cycle |
| Restart.InavRestart | backend/analysis/inav_encode.py:416-444 | an I/NAV stream restarted later continues the earlier one exactly, across the end of the week too |
| Restart.InavComplete | backend/analysis/inav_encode.py:267-276 | any 30 seconds of pages carry every word type from 0 to 6, wherever they start |
| Restart.InavReceived | backend/analysis/inav_decode.py:128-158 | from every stream of built pages, started at any second, the receiver reports every page of the schedule in order at its position; from the symbols of the other carrier sign it reports the same unless those themselves hold a page |
| Restart.InavEphemeris | backend/analysis/inav_decode.py:128-158 | so it gets every word type from 0 to 6 from any stream whose words of these types carry their type, as those of `Restart.EmptyWordsTold` do |
| Restart.StringsTurn | backend/analysis/glo_str_encode.py:159-166 | string numbers count from 1 to 15 and around, and number 1 starts on every half minute of Moscow time |
| Restart.SubframesTurn | backend/analysis/bds_d1_encode.py:234-250 | D1 subframe numbers count from 1 to 5 and around, across the end of the week too, and number 1 starts on every half minute |
| Restart.GlonassStream | backend/analysis/glo_str_encode.py:250-265 | the string loop sends the schedule of 15 strings in Moscow time |
| Restart.GlonassRestart | backend/analysis/glo_str_encode.py:257-265 | a GLONASS stream restarted later continues the earlier one exactly |
| Restart.GlonassReceived | backend/analysis/glo_str_decode.py:219-251 | from every stream of built strings, started at any second and of either carrier sign, the receiver collects every string under its number |
| Restart.GlonassFrame | backend/analysis/glo_str_decode.py:219-251 | so it gets all fifteen strings from any stream whose strings 1 to 15 carry their number, as those of `Restart.EmptyStringsTold` do, and of each number the first one sent |
| Restart.BeidouStream | backend/analysis/bds_d1_encode.py:224-253 | D1 subframes or D2 frames of five subframes by second of the BeiDou week |
| Restart.BeidouRestart | backend/analysis/bds_d1_encode.py:234-250 | a D1 or D2 stream restarted later with the same week argument continues the earlier one exactly |
| Restart.BeidouWeekEnd | backend/analysis/bds_d1_encode.py:234-250 | across the end of the week with the week argument advanced, symbols of the same instant have the same place in the subframe of the same number and second of week, so they differ only where that subframe's contents do |
| Restart.BeidouReceived | backend/analysis/bds_d1_decode.py:166-196 | from every built D1 stream, started at any second, the receiver reports every subframe of the schedule in order; from the symbols of the other carrier sign too, unless those themselves hold a subframe |
| Restart.LnavStream | backend/analysis/lnav_encode.py:424-451 | whole frames from the frame boundary on, cut to the subframe asked for |
| Restart.LnavAt | backend/analysis/lnav_encode.py:433-451 | every symbol is the bit of the week's frames that its absolute index names |
| Restart.LnavRestart | backend/analysis/lnav_encode.py:433-451 | an LNAV stream restarted later in the week continues the earlier one exactly, from the middle of a frame too |
| Restart.LnavReceived | backend/analysis/lnav_decode.py:37-78 | on every LNAV stream of built subframes (`Restart.LnavBuiltCarries`), started at any second and read upright or negated, the scan returns every whole subframe in order with position, id, count and words |
| Restart.EncodedContinues | backend/analysis/sbas_encode.py:79-89 | two encodings of one schedule agree from the later start on when the state at the join agrees |
| Restart.SbasStream | backend/analysis/sbas_encode.py:137-158 | with the warm-up block sent and dropped the symbols are those of an encoder standing where the block before leaves it |
| Restart.SbasRestart | backend/analysis/sbas_encode.py:148-158 | an SBAS stream restarted later continues the earlier one exactly |
| Restart.SbasWeekly | backend/analysis/sbas_encode.py:130-155 | preamble turns and message types repeat every week |
| Restart.SbasDecoded | backend/analysis/sbas_encode.py:161-176 | decoded with no start state a stream gives back every block and every block passes its checksum |
| Restart.CnavStream | backend/analysis/cnav_encode.py:167-193 | messages by type cycle and following count through an encoder that starts empty |
| Restart.CnavRestart | backend/analysis/cnav_encode.py:173-193 | a restarted CNAV stream continues the earlier one from symbol 12 on, and its first twelve symbols do exactly when the message before ends in six zero bits |
| Restart.CnavRestartSpoiled | backend/analysis/cnav_encode.py:158-193 | of two schedules whose message before the restart differs only in the last bit of the argument of perigee, at most one restarts exactly |
| Restart.CnavRestartDiffers | backend/analysis/cnav_encode.py:158-193 | a schedule of built messages whose restarted stream does not start as the earlier one goes on |
| Restart.CnavDecoded | backend/analysis/cnav_decode.py:86-115 | a receiver reads every message of any CNAV stream, restarted or not; from the symbols of the other carrier sign it reads what the two readings tried before hold, and else every message |
| Fields.PackLoop | backend/fpga/cmdfmt.py:182-185 | or-ing shifted fields at the table's offsets builds the mixed-radix number of the fields |
| Fields.UnpackLoop | backend/fpga/cmdfmt.py:188-198 | shift and mask at the table's offsets reads every field |
| CmdFmt.Layout | backend/fpga/cmdfmt.py:93-104 | the field table lies side by side from bit 0 and fills 320 bits with none spare |
| CmdFmt.PackChannel | backend/fpga/cmdfmt.py:153-185 | the packer's checks in order and its words |
| CmdFmt.UnpackChannel | backend/fpga/cmdfmt.py:188-211 | the reader's fields, the illegal sub-carrier code refused |
| CmdFmt.ChannelRoundTrip | backend/fpga/cmdfmt.py:153-211 | every channel the packer accepts comes back exactly from its ten words |
| CmdFmt.ChannelBack | backend/fpga/cmdfmt.py:153-211 | any ten words the reader accepts pack back to themselves exactly when both phases are below the code length, and are refused for the first phase that is not |
| CmdFmt.FarRefused | backend/fpga/cmdfmt.py:153-211 | ten words that are read as a channel whose code phase lies beyond its code length, which the packer refuses |
| CmdStream.Format.UnpackStream | backend/fpga/cmdfmt.py:223-259 | the index-moving reader returns the records of the parse function on every list of words |
| CmdStream.WireRoundTrip | backend/fpga/cmdfmt.py:144-259 | accepted records with any words between them whose top byte is not the magic byte are returned exactly, in order |
| CmdStream.WireReadsBack | backend/fpga/cmdfmt.py:223-259 | on arbitrary words the records found lie in disjoint slices in order with no record starting between them, and each packs back to its slice exactly when its phases are in range |
| CmdStream.Format.LaidIsParse | backend/fpga/cmdfmt.py:223-259 | that layout determines the records: no other list of records fits the words |
| CmdWords.CarrMeaning | backend/fpga/cmdgen.py:284-293 | carrier words stand for the rounded frequency and the phase rounded down, up to whole turns |
| CmdWords.CarrierBoundary | backend/fpga/cmdgen.py:284-293 | the word reached after n samples differs from the start word of the phase n steps on by at most n/2 + 1 units around the circle, plus any real phase step |
| CmdWords.CodeMeaning | backend/fpga/cmdgen.py:416-422 | the code word is the rounded code phase up to whole code lengths and lies in range |
| CmdWords.CodeBoundary | backend/fpga/cmdgen.py:416-422 | the same bound for the 40-bit code word around one code length |
| CmdSign.SignBits | backend/fpga/cmdgen.py:239-250 | the bit loop computes the window of 32 period polarities |
| CmdSign.SignStateMeaning | backend/fpga/cmdgen.py:220-236 | period and phase word stand for the real phase to half a unit, also where rounding carries into the next period |
| CmdSign.SignWindow | backend/fpga/cmdgen.py:253-264 | for any code rate a block is taken exactly when every sample's bit index is below 32; each bit at an index that is not negative is the secondary chip times the navigation symbol of period p0 plus that index; and no index is negative exactly when the last sample's sign phase is not |
| CmdSign.SignAtSample | backend/fpga/cmdgen.py:220-264 | away from period boundaries by the accumulated rounding the bit used at sample k is the polarity of the period the true code phase lies in, for every sample whose index is not negative, so for all of them when the code runs forward |
| CmdGen.Linear | backend/fpga/cmdgen.py:192-217 | within one trajectory segment phases advance by exactly n steps |
| CmdGen.AtKnot | backend/fpga/cmdgen.py:196-204 | at the sample a knot stands for, carrier and code are the knot's own |
| CmdGen.EffectivePhase | backend/fpga/cmdgen.py:205-216 | without knots the code phase at sample 0 lies in one code length and completes the given lag to whole code lengths |
| CmdGen.Ramp.Midpoint | backend/fpga/cmdgen.py:82-87 | the integral of the oscillator error over a block is its midpoint value times the block plus accel d^3 / 24 |
| CmdGen.RampBoundary | backend/fpga/cmdgen.py:394-405 | at a block boundary the corrected carrier steps by f_rf accel d^3 / 24 cycles and the code by chip_rate accel d^3 / 24 chips, whatever came before, so by nothing for a pure rate or offset |
| CmdGen.Fade.Edges | backend/fpga/cmdgen.py:136-148 | the cached edges of a block are the gains at its two ends, whichever blocks were asked for before |
| CmdGen.FadeTurn | backend/fpga/cmdgen.py:407-415 | the unwrapped turn over a block ends on the next block's start angle up to whole cycles, unless the gain vanishes there |
| CmdGen.BlockBoundary | backend/fpga/cmdgen.py:387-430 | for consecutive blocks of a steady channel with ramp and fading, end and start words differ by at most half a unit per sample and one unit beyond the cubic ramp step and a vanished gain's angle |
| CmdGen.RecordPacked | backend/fpga/cmdgen.py:387-430 | the packer accepts a generated record with legal fixed fields exactly when its code increment is from 0 to below 2^43 and else refuses that field: phases, carrier increment, sign bits and coefficients are always in range |
| CmdGen.LongBlockPacked | backend/fpga/cmdgen.py:387-430 | in blocks of 65536 samples only a negative code increment is refused: a block that the sign window takes cannot reach 2^43 |
| CmdGen.RefusedRate | backend/fpga/cmdgen.py:387-430 | codes of whole chips per sample that run backward, or by eight chips or more, are generated in short blocks and refused by the packer |
| CmdGen.OnlyWindowStops | backend/fpga/cmdgen.py:253-311 | once a run has started only the sign window stops it: no amplitude does, however high a fading peak |
| CmdGen.SaturatedFits | backend/fpga/cmdgen.py:296-311 | the coefficients of a saturated gain that is not negative fit their 18 bits, both sub-carrier parts included |
| CmdGen.GenerateBlocks | backend/fpga/cmdgen.py:363-430 | refused before the first block by channel count, code length or an amplitude; else block after block, each a function of its own index alone whatever the cache holds, ending early only at the first block that raises |
| Polynomials.Unique | backend/ephem/precise.py:101-121 | two polynomials with at most n coefficients that agree on n distinct points have the same value and slope everywhere |
| Precise.Neville | backend/ephem/precise.py:101-121 | the in-place tableau returns value and slope of the interpolating polynomial, and fails exactly on empty or unequal lists and on coinciding nodes |
| Precise.ThroughPoints | backend/ephem/precise.py:101-121 | the tableau's polynomial passes through every point |
| Precise.NevilleExact | backend/ephem/precise.py:101-121 | value and slope are those of any polynomial of degree below the number of points that passes through them |
| Orbit.MergeSp3 | backend/ephem/precise.py:255-284 | the merging loops compute the merged product: none, the only one as it is, or the union per satellite |
| Orbit.MergedIncreasing | backend/ephem/precise.py:255-284 | a satellite's merged rows are strictly increasing in time exactly when two or more products were merged or the only one's rows were |
| Orbit.MergedRows | backend/ephem/precise.py:267-278 | rows merged from two or more products are strictly increasing in time and hold, for every epoch, the first row collected for it |
| Orbit.RepeatedEpochFails | backend/ephem/precise.py:255-415 | a single product with two rows of one epoch, whatever they hold: merging leaves both, and the state there fails in the tableau |
| Orbit.CollectedFirst | backend/ephem/precise.py:267-278 | the first row collected for an epoch is that of the first product that has one |
| Orbit.WindowBrackets | backend/ephem/precise.py:372-392 | the window has samples on both sides of the epoch exactly when it holds at least two samples or the epoch is the last sample |
| Orbit.OrderZeroMisses | backend/ephem/precise.py:372-392 | with order 0 the one sample taken at the first of two samples is the second |
| Orbit.GetState | backend/ephem/precise.py:351-415 | the state, clock included, or the reason there is none, in the order of the checks |
| Orbit.InterpClock | backend/ephem/precise.py:724-737 | bias and drift on the line between a sample and the next, or refusal |
| Orbit.ClockExact | backend/ephem/precise.py:377-400 | on increasing rows a clock is refused exactly when one of the two samples around the epoch is bad; it is the sample's own at every sample, and a clock of constant drift comes out exactly |
| Orbit.AxisExact | backend/ephem/precise.py:394-397 | a coordinate that moves on a polynomial of degree below the window's size comes out exactly, with its rate |
| Orbit.MergedState | backend/ephem/precise.py:351-415 | on rows merged from two or more products, or from one whose rows increase, every epoch with a window has a state unless a clock sample around it is bad, and polynomial motion is reproduced exactly in position and velocity |
| Tracker.Channel.PhaseAfter | gnss_rx/track.py:66-67 | the code phase left after an epoch lies in [0, rate/fs), so only the rate can leave its bounds |
| Tracker.Channel.RunExtended | gnss_rx/track.py:69-79 | samples pushed later change nothing of the epochs already complete; the states they lead on to keep the bounds of the whole run |
| Tracker.Channel.Tiling | gnss_rx/track.py:69-79 | the epochs tile the stream without gap or overlap, each of at least one sample, less than a block is left over, and each code phase is below one sample's advance |
| Tracker.Tracker.Push | gnss_rx/track.py:63-64 | pushing appends samples and keeps the state consistent with the whole stream |
| Tracker.Tracker.Step | gnss_rx/track.py:69-79 | after a step the record list and the loop state are those of all samples pushed so far at once |
| Tracker.Feed | gnss_rx/track.py:63-79 | for any samples whose run keeps the code rate in its bounds, and any way of cutting them into pushes, the epochs are the same |
| EpochGrid.Field.Exact | backend/analysis/lnav_encode.py:192-201 | a time comes back from a broadcast field exactly when it is a multiple of the unit that fits the bits |
| EpochGrid.AlignEpochs | backend/ephem/ephemeris.py:178-240 | every record of the set is relabelled by the branch that applies to it, no record is lost or added |
| EpochGrid.RelabelledSurvive | backend/ephem/ephemeris.py:178-240 | on any grid of whole 20 minutes every relabelled Keplerian record has epochs that its LNAV, CNAV, I/NAV or, in BeiDou time, D1 fields bring back exactly; GPS at most two hours ahead, others at most one step behind |
| EpochGrid.IssueNamesEpoch | backend/ephem/ephemeris.py:221-239 | within a week two relabelled GPS or Galileo records with the same issue number carry the same epoch |
| EpochGrid.SbasEpoch | backend/ephem/ephemeris.py:206-210 | an SBAS state is labelled on the 16-second grid, less than a step before the run |
| EpochGrid.GlonassKept | backend/ephem/ephemeris.py:123-137 | a GLONASS state kept at its real epoch stays within a quarter of an hour of the run and is its UTC epoch on the GPS scale up to whole weeks |
| EpochGrid.BdtEpoch | backend/analysis/nav_encoders.py:162-171 | a BeiDou epoch snapped on its own scale is a grid step of the week there, before the week start too |
| EpochGrid.TbRecovered | backend/analysis/glo_str_encode.py:292-298 | an epoch on the 15-minute grid is recovered from its index exactly when it lies from 12 hours before to less than 12 hours after the approximate time |
| EpochGrid.GlonassRelabelled | backend/ephem/ephemeris.py:123-141 | a GLONASS state relabelled on the native grid lies on that grid, less than 15 minutes before the run, and is recovered |

## Left out

- Floating-point rounding: reals are exact here; the guards of `_sign_state` against a fraction outside one code length are kept although exact arithmetic never takes them.
- The native C++ engine, the code memories and the choice of satellites: a channel's ROM number, kind and sub-carrier flags are given to `CmdGen`, and the fading gain is an arbitrary function of the block edge.
- CmdGen.GenerateBlocks: does not model the tests for supported systems and for a primary code that equals the code memory, because they read modules that are not part of this model; the amplitude scale is given, not computed from the number of channels by a square root.
- Negative sample offsets and block labels in `CmdGen`: the command index is unsigned.
- The byte level of the command stream: words are unsigned numbers, and up to three trailing bytes, which the reader drops, are not modelled.
- The symbol alphabet: bits stand for the encoders' +1 and -1 symbols, and the `& 1` by which decoders normalise their input is not modelled.
- Message contents in `Restart`: pages, strings, subframes, frames and messages are arbitrary functions of the schedule's numbers (times, types, counts) with the right length, and what is received is stated for streams of built ones. D2 frames are not built.
- The module-level cell that holds the LNAV telemetry message bits is part of a subframe's content in `Lnav`, not a shared variable.
- Restart.LnavRestart: both streams are asked for with the same week argument, because the LNAV count goes on past the end of the week instead of starting again; so does the CNAV count.
- Restart.BeidouRestart: both streams are asked for with the same week argument. D1 and D2 start the second of week again at the end of the week, but the week in their contents does not advance with it; `Restart.BeidouWeekEnd` says which symbols that changes.
- OSNMA generation and verification: the 40 bits are arbitrary in a page, and the schedule that depends on them is not modelled.
- Inav.PageCorrected: a free decoding of a disturbed page that passes its checksum is taken by the code; whether one exists within four errors is not decided here.
- Inav.CheckBits: gives the 128 word bits and the word type, not the named fields that are read from a word whose checksum passes.
- Cnav.InvertedReceived: what the pairs cut one symbol late hold is given as that reading itself, because those symbols are no codeword of the bits sent.
- Lnav.Code.StreamFound, Cnav.StreamDecoded, BdsD1.StreamRoundTrip and Glonass.CleanStreamDecoded: state reception from a boundary, because elsewhere a chance match is possible.
- Field values other than reference epochs and CNAV payload fields, week number conversions, almanacs and ephemeris reconstruction.
- Orbit.MergeSp3: the list of epochs, the file names and the week and interval of a merged product are not part of it.
- The parsing of orbit files, negative interpolation orders and the description of a state's source in `Orbit`.
- The tracker's correlators, discriminators and loop filters: one function of the loop state, the samples and the code phase. The states that a run reaches are assumed to have a code rate that is positive and below one code length per sample; beyond these bounds a block may hold no sample.
- EpochGrid.AlignEpochs: identifiers and orbit elements of a record are not part of it, only its epochs, week and issue numbers.
- F/NAV, NavIC and B-CNAV2 encoders and decoders, the SBAS ionosphere schedule, and the LDPC code: same shape as what is modelled, or without an exact contract.
- Demodulation of samples, acquisition, position fixes, orbit fitting and everything that talks to files, radios or the network.
