# Simutrace core, modelled in Dafny

Simutrace is a tracing framework: clients open a session with a storage
server and append trace entries to streams. A stream lives in fixed-size
segments, which are handed out by a stream buffer. Full segments are
compressed and stored, and can later be read back. This project models the
core of that system in Dafny and proves properties of the model.

The core consists of:

- **memreplay** (`ram_map.dfy`, `ram_bitmap.dfy`, `replay.dfy`,
  `program_args.dfy`). This is the C# sample that replays a memory trace.
  - RamMap stamps the frames touched by each read and write.
  - RamBitmap paints the frames as pixels, blending each frame's colour
    towards cold as its stamp ages.
  - Replay sends each trace entry to its handler and moves through its
    running, suspended and finished states.
  - Program parses the command line.
- **Variable-sized entries** (`variable_data.dfy`). These are the
  algorithms of SimuStorTypes.h:
  - the entry-size word with its flag bit;
  - writeVariableData, which splits an entry into blocks with continuation
    headers;
  - readVariableData, which reassembles them;
  - findVariableEntry.
- **VPC4 predictors and the compound encoder** (`fcm_history.dfy`,
  `fcm_predictor.dfy`, `fcm_pair.dfy`, `last_n_value.dfy`,
  `compound.dfy`, `ip_predictor.dfy`, `cycle_predictor.dfy`,
  `value_predictor.dfy`).
  - The finite-context-method histories and tables, and the
    last-n-value table.
  - The three predictors that turn memory-access entries into predictor ids
    and residual data. Each is proved to decode exactly what it encoded.
- **Storage server streams** (`stream_index.dfy`, `server_stream.dfy`,
  `stream_buffer.dfy`, `server_stream_buffer.dfy`).
  - ServerStream keeps the segment vector. Reference counts are kept per
    session, and the range trees are searched by findSequenceNumber.
  - StreamBuffer works out the layout of the shared segment buffer.
  - ServerStreamBuffer keeps the free list, the LRU standby cache with its
    index, and the request, submit, free, purge and flush paths of a
    segment.
- **Log pattern parsing** (`pattern_layout.dfy`): `PatternLogLayout::_updatePattern`.
- **Utilities** (`version.dfy`, `clock.dfy`, `size_string.dfy`,
  `id_allocator.dfy`, `work_queue.dfy`, `simtrace3_frame.dfy`,
  `multiplexer.dfy`, `memory_types.dfy`, `bytes.dfy`, `decimal.dfy`).
  - Version packing, the clock conversions, sizeToString, IdAllocator and
    the priority WorkQueue.
  - The simtrace v3 frame header with its attribute table.
  - The StreamMultiplexer, which merges input streams in cycle order or
    round robin.

Code that changes state in place is modelled as classes with `modifies`
frames and loops with invariants. This covers RamMap, the bitmap, the
replay, the predictors, the streams, the buffers, the work queue, the id
allocator and the multiplexer handle. Each method is proved against a
function on values, and the properties are proved as lemmas about those
functions: round trips, preserved invariants, ordering and eviction order.
Pure code is modelled as functions.

Two details of the code are kept as written:

- The multiplexer orders its streams by their current cycle counts only
  (StreamMultiplexer.cpp:72-85). The first ordering is an unstable
  std::sort (StreamMultiplexer.cpp:292-293), and a stream that advanced is
  put back in front of the streams with the same cycle count
  (StreamMultiplexer.cpp:381-392). Equal cycle counts are therefore not
  ordered by input position.
- RamMap's bounds check adds the access size code (0..3), not the size in
  bytes (RamMap.cs:71).

The Findings below list the places where the code does not do what it
evidently intends.

## Model

| member | source | states |
|---|---|---|
| Clock.ToUint64 | simutrace/libsimubase/Clock.cpp:112 | the cast to uint64: a value below 2^64 congruent to its argument modulo 2^64 |
| Clock.ToInt64 | simutrace/libsimubase/Clock.cpp:118 | a uint64 bit pattern read as int64: a value in the int64 range congruent to it modulo 2^64 |
| Clock.TruncDiv | simutrace/libsimubase/Clock.cpp:119 | signed division truncates toward zero: the Euclidean quotient for a non-negative dividend, the negated quotient of the negated dividend otherwise |
| Clock.TimeToTimestamp | simutrace/libsimubase/Clock.cpp:106-114 | the result is a uint64, and for a non-negative time whose tick count plus the FILETIME epoch offset fits it is exactly t * 10^7 + 116444736000000000 |
| Clock.TimestampToTime | simutrace/libsimubase/Clock.cpp:116-120 | the result is an int64, and for timestamps from the epoch offset up to 2^63 ticks after it it is the whole seconds since 1970 |
| Clock.TimeRoundTrip | simutrace/libsimubase/Clock.cpp:106-120 | converting any UNIX time whose tick count fits int64 to a timestamp and back gives the same time, negative times included |
| Clock.TicksRoundTrip | simutrace/libsimubase/Clock.cpp:112-118 | the uint64 difference between a built timestamp and the epoch offset, read back as int64, is exactly the tick count the timestamp was built from |
| Clock.TruncDivTicks | simutrace/libsimubase/Clock.cpp:119 | dividing a tick count t * 10^7 by 10^7 with truncation toward zero gives t back, for negative t too |
| Clock.Milliseconds | simutrace/libsimubase/Clock.cpp:140 | the '%~' value lies in 0..999 and is the milliseconds within the current second of the timestamp |
| Clock.MillisecondsOfSecond | simutrace/libsimubase/Clock.cpp:140 | taking ticks/10000 modulo 1000 gives the same milliseconds as dividing the ticks within the current second by 10000 |
| Clock.Pad3 | simutrace/libsimubase/Clock.cpp:144-146 | three decimal digits whose value is the number (setw(3) with fill '0') |
| Clock.FindMarker | simutrace/libsimubase/Clock.cpp:138 | format.find("%~"): the first position of "%~" at or after the start, or -1 when there is none |
| Clock.ExpandMilliseconds | simutrace/libsimubase/Clock.cpp:138-151 | without "%~" the format is unchanged; otherwise the first "%~" is replaced by the three-digit milliseconds and everything around it is kept |
| Version.VerMajor | simutrace/include/Version.h:58 | the major version is a byte |
| Version.VerMinor | simutrace/include/Version.h:59 | the minor version is a byte |
| Version.VerRevision | simutrace/include/Version.h:60 | the revision is below 2^16 |
| Version.Ver | simutrace/include/Version.h:61-62 | each extractor recovers its part of a packed word: the major and minor versions truncated to a byte, the revision truncated to 16 bits |
| Version.CurrentVersion | simutrace/include/Version.h:64-67 | the released version word is 0x300: major 3, minor 0, revision 0 |
| Version.VerInjective | simutrace/include/Version.h:61-62 | for parts within their widths, two packed versions are equal exactly when all three parts are |
| IdAllocation.IdAllocator.constructor | simutrace/include/simubase/IdAllocator.h:39-40 | a new allocator hands out 0 first |
| IdAllocation.IdAllocator.GetNextId | simutrace/include/simubase/IdAllocator.h:43-49 | at the largest value of the id type it throws InvalidOperationException and keeps the counter; otherwise it returns the counter and advances it by one |
| IdAllocation.IdAllocator.StealId | simutrace/include/simubase/IdAllocator.h:51 | the id after the stolen one comes next, wrapping to 0 after the largest value |
| IdAllocation.IdAllocator.RetireId | simutrace/include/simubase/IdAllocator.h:53 | the counter is unchanged |
| MemoryTypes.MasTypeTable | simutrace/include/SimuTraceEntryTypes.h:419-518 | the descriptor table has AsMax * MatMax * AtMax * 2 = 16 entries, and exactly the even-numbered entries are 32-bit types |
| MemoryTypes.TableIndex | simutrace/include/SimuTraceEntryTypes.h:532-536 | the OR of the four fields is their weighted sum size + 2 * accessType + 4 * addressType + 8 * hasData, and always a valid table index |
| MemoryTypes.FindMemoryType | simutrace/include/SimuTraceEntryTypes.h:520-537 | null exactly when a field is out of range; a found descriptor is a 32-bit type exactly when the architecture size is 32 bit |
| MemoryTypes.DataWrite64PhysicalIsEntry11 | simutrace/include/SimuTraceEntryTypes.h:488-536 | the 64-bit physical write with data, which the memory replay sample reads, is table entry 11 |
| MemoryTypes.HasDataNormalised | simutrace/include/SimuTraceEntryTypes.h:532 | every non-zero hasData selects the same entry as 1 |
| MemoryTypes.TableIndexInjective | simutrace/include/SimuTraceEntryTypes.h:533-536 | different valid field combinations select different entries |
| SizeString.Scale | simutrace/libsimubase/Utils.cpp:101-106 | the unit index never passes maxUnit; the value is the size divided by 1024 once per unit step, and it is below 1024 unless maxUnit stopped the loop |
| SizeString.SizeTextMeaning | simutrace/libsimubase/Utils.cpp:100-111 | for a size above 1 the text is "<v> <unit>" with a unit between bytes and maxUnit, v the size scaled to that unit, and v below 1024 unless the unit is maxUnit |
| SizeString.SmallSizes | simutrace/libsimubase/Utils.cpp:90-111 | size 0 reads "0 bytes" and size 1 reads "1 byte" |
| SizeString.SizeToString | simutrace/libsimubase/Utils.cpp:88-112 | the loop's result is the text the specification function gives |
| Bytes.LowBytes | samples/csharp.memreplay/RamMap.cs:76-98 | storing a value truncated to n bytes writes exactly n bytes |
| Bytes.LowBytesValue | samples/csharp.memreplay/RamMap.cs:76-98 | loading the n stored little-endian bytes of a value that fits in n bytes gives the value back |
| Bytes.LittleEndianBytes | samples/csharp.memreplay/RamMap.cs:76-98 | the value of n loaded bytes fits in n bytes, and storing it writes the same bytes back |
| Decimal.NatToString | simutrace/libsimubase/Utils.cpp:111 | "%llu": a non-empty string of decimal digits without leading zero |
| Decimal.NatToStringValue | simutrace/libsimubase/Utils.cpp:111 | reading back the printed digits gives the number |
| Decimal.NumbersOfNat | simutrace/libsimubase/Utils.cpp:34-44 | the only number in a printed number is that number |
| Decimal.NumbersOfText | simutrace/libsimubase/Utils.cpp:34-44 | fixed text without digits holds no number |
| Decimal.NumbersAppend | simutrace/libsimubase/Utils.cpp:34-44 | joining two texts where no run of digits is cut in two joins their lists of numbers |
| Decimal.NumberThenText | simutrace/libsimubase/Utils.cpp:34-44 | a number printed between text that ends outside a number and text without digits adds exactly that number, and the result again ends outside a number |
| Decimal.OneNumber | simutrace/libsimubase/Utils.cpp:34-44 | a message printing one number into fixed text holds exactly that number |
| Decimal.TwoNumbers | simutrace/libsimubase/Utils.cpp:34-44 | a message printing two numbers into fixed text holds exactly those numbers, in order |
| Decimal.ThreeNumbers | simutrace/libsimubase/Utils.cpp:34-44 | a message printing three numbers into fixed text holds exactly those numbers, in order |
| RamMapping.AccessBytes | samples/csharp.memreplay/RamMap.cs:76-98 | size codes 0..3 store 1, 2, 4 or 8 bytes, always more bytes than the code itself |
| RamMapping.Mark | samples/csharp.memreplay/RamMap.cs:107-113 | one stamp: the read or the write stamp of one frame becomes the index, and every other field and frame is kept |
| RamMapping.MarkAccess | samples/csharp.memreplay/RamMap.cs:107-113 | the frame table keeps its length; the first-byte frame and the frame of address plus size code are stamped, and an index past the table ends the access |
| RamMapping.StoreImage | samples/csharp.memreplay/RamMap.cs:76-98 | the stored bytes land at address on, and every other byte of the image is kept |
| RamMapping.StoreLoad | samples/csharp.memreplay/RamMap.cs:76-98 | a captured write that fits the image reads back as its data truncated to 1, 2, 4 or 8 bytes |
| RamMapping.BoundsCheckOverrun | samples/csharp.memreplay/RamMap.cs:71 | the check adds the size code, not the byte count: an 8-byte write at 8188 into 8192 bytes passes it although its last four bytes lie past the image |
| RamMapping.FitsImageStore | samples/csharp.memreplay/RamMap.cs:71-98 | under the intended check (address plus byte count within the RAM) the check as written also passes, and all stored bytes land in the image and read back as the data |
| RamMapping.AccessOutcome | samples/csharp.memreplay/RamMap.cs:65-114 | the frame table and the image keep their sizes |
| RamMapping.AccessDropped | samples/csharp.memreplay/RamMap.cs:71-73 | an access whose address plus size code reaches the RAM size changes neither frames nor image and returns normally |
| RamMapping.AccessKeepsImage | samples/csharp.memreplay/RamMap.cs:75 | reads, and all accesses without capture, never change the image |
| RamMapping.AccessOversized | samples/csharp.memreplay/RamMap.cs:100-102 | a captured write with a size code above 3 throws ReplayException and changes nothing |
| RamMapping.AccessStores | samples/csharp.memreplay/RamMap.cs:76-98 | a captured write that fits the image stores its data truncated to 1, 2, 4 or 8 bytes |
| RamMapping.AccessStamps | samples/csharp.memreplay/RamMap.cs:107-113 | a write sets LastWriteAccess of frames address >> 12 and (address + size code) >> 12 to the new index and keeps their read stamps; a read sets only LastReadAccess; every other frame is unchanged |
| RamMapping.RamMap.constructor | samples/csharp.memreplay/RamMap.cs:29-39 | a new map has size >> 12 zeroed frames, index 0, and a RAM image only when data is captured |
| RamMapping.RamMap.NumFrames | samples/csharp.memreplay/RamMap.cs:121-124 | the number of frames is size >> 12, the length of the frame table |
| RamMapping.RamMap.ApplyMemoryAccess | samples/csharp.memreplay/RamMap.cs:65-114 | every call records the cycle and increments the index by one, even a dropped access; the frames, the image and the outcome are those AccessOutcome gives for the old state |
| RamMapping.RamMap.StoreBytes | samples/csharp.memreplay/RamMap.cs:76-98 | the image becomes StoreImage of the old image |
| RamMapping.RamMap.StampFrame | samples/csharp.memreplay/RamMap.cs:107-113 | the frame table becomes Mark of the old table with the current index |
| RamBitmapping.BlendChannel | samples/csharp.memreplay/RamBitmap.cs:63-69 | a blended channel lies between the two channels it blends |
| RamBitmapping.BlendEnds | samples/csharp.memreplay/RamBitmap.cs:63-69 | amount one gives the colour and amount zero the back colour |
| RamBitmapping.WriteStats | samples/csharp.memreplay/RamBitmap.cs:96-105 | the count of written frames is at most the number of frames summed |
| RamBitmapping.WriteStatsNone | samples/csharp.memreplay/RamBitmap.cs:96-105 | the count is zero exactly when no frame has a write stamp |
| RamBitmapping.WriteStatsFresh | samples/csharp.memreplay/RamBitmap.cs:99-101 | frames all written by the latest access have age sum zero |
| RamBitmapping.WriteStatsOld | samples/csharp.memreplay/RamBitmap.cs:99-101 | written frames all older than fadeMax have an age sum above fadeMax per written frame |
| RamBitmapping.PixelWhite | samples/csharp.memreplay/RamBitmap.cs:107-108 | a pixel is white exactly when none of its frames was written |
| RamBitmapping.PixelHot | samples/csharp.memreplay/RamBitmap.cs:110-115 | frames written by the latest access show the hot write colour |
| RamBitmapping.PixelCold | samples/csharp.memreplay/RamBitmap.cs:110-112 | written frames whose average age exceeds fadeMax show the cold colour |
| RamBitmapping.Pixels | samples/csharp.memreplay/RamBitmap.cs:90-121 | the drawing produces at most as many pixels as the surface has |
| RamBitmapping.PixelsRaster | samples/csharp.memreplay/RamBitmap.cs:90-121 | pixel p is the pixel of address start + p * 4096 * zoom; drawing stops only when the surface is full or the address reaches the RAM size |
| RamBitmapping.SumWrites | samples/csharp.memreplay/RamBitmap.cs:94-105 | the inner loop gives the age sum and count of the pixel's frames, and IndexOutOfRangeException when they lie past the frame table |
| RamBitmapping.RamBitmap.constructor | samples/csharp.memreplay/RamBitmap.cs:27-40 | a new bitmap has width and height zero, starts at address 0 and has no surface |
| RamBitmapping.RamBitmap.Draw | samples/csharp.memreplay/RamBitmap.cs:71-127 | the surface starts with exactly the pixels of Pixels and the rest of it is unchanged; a frame index past the table fails the drawing |
| RamBitmapping.RamBitmap.DrawPixel | samples/csharp.memreplay/RamBitmap.cs:94-119 | one pass of the pixel loop stores the pixel of the address at the current place and changes nothing else |
| RamBitmapping.RamBitmap.Refresh | samples/csharp.memreplay/RamBitmap.cs:129-132 | redraws the surface as Draw does; without a surface it fails with a null reference |
| RamBitmapping.RamBitmap.SetBounds | samples/csharp.memreplay/RamBitmap.cs:134-155 | records the new size; a non-positive size leaves no surface, otherwise a fresh surface shows the drawn pixels followed by the background colour |
| Replaying.Flags | samples/csharp.memreplay/Replay.cs:506-508 | the access flags are the 16-bit field above the 48-bit cycle count of the metadata word |
| Replaying.SizeCode | samples/csharp.memreplay/Replay.cs:506-509 | flag bit 0 forces size code 3, otherwise the code is the 32-bit size field of the data word |
| Replaying.Inputs | samples/csharp.memreplay/Replay.cs:366-420 | the multiplexer's inputs are the write stream first, then the screen and page directory streams when found: one to three inputs |
| Replaying.DispatchAsWrittenMisses | samples/csharp.memreplay/Replay.cs:595-596 | using the input position as slot number reaches the registered stream exactly for input 0 or when the screen streams exist; otherwise a page directory switch lands in the empty screen slot and throws NullReferenceException |
| Replaying.DispatchIsBijective | samples/csharp.memreplay/Replay.cs:595-596 | every input position reaches a stream with an apply method, every such stream receives one input, and no two inputs share a stream |
| Replaying.Cr3Count | samples/csharp.memreplay/Replay.cs:558-565 | the number of page directory switches is at most the number of entries |
| Replaying.WriteCount | samples/csharp.memreplay/Replay.cs:504-515 | the number of memory writes is at most the number of entries |
| Replaying.Cr3After | samples/csharp.memreplay/Replay.cs:558-565 | the page directory after a run of entries is the starting one or the value of one of the switches among them |
| Replaying.ApplyEntry | samples/csharp.memreplay/Replay.cs:504-515 | one entry is one access of the RAM map when it is a write and leaves the map and counters alone otherwise; sizes of the frame table, image and counters are kept |
| Replaying.Replayed | samples/csharp.memreplay/Replay.cs:582-601 | replaying entries counts exactly one RAM access per memory write among them and keeps the sizes of the frame table, image and counters |
| Replaying.ReplayedSplits | samples/csharp.memreplay/Replay.cs:582-601 | replaying entries in two runs, the second from where the first stopped, is replaying them in one |
| Replaying.ReplayedWithoutWrites | samples/csharp.memreplay/Replay.cs:595-596 | screen dumps and page directory switches leave the RAM map and the write counters unchanged |
| Replaying.Cr3WithoutScreen | samples/csharp.memreplay/Replay.cs:595-596 | without screen streams the switch from input 1 fails with NullReferenceException where the page directory stream is meant to apply it |
| Replaying.Replay.constructor | samples/csharp.memreplay/Replay.cs:327-338 | a new replay is suspended with zero counters, four write counters and a captured RAM map of ramSizeInMiB << 20 bytes |
| Replaying.Replay.Begin | samples/csharp.memreplay/Replay.cs:654-666 | a finished replay throws InvalidOperationException and is unchanged; otherwise it runs with the requested single-step flag and its thread is started, which throws ThreadStateException for a thread that already finished |
| Replaying.Replay.Start | samples/csharp.memreplay/Replay.cs:668-671 | Begin without single step |
| Replaying.Replay.SingleStep | samples/csharp.memreplay/Replay.cs:673-676 | Begin in single-step mode |
| Replaying.Replay.Stop | samples/csharp.memreplay/Replay.cs:678-681 | the replay is done from any state, and nothing else changes |
| Replaying.Replay.Suspend | samples/csharp.memreplay/Replay.cs:683-690 | a done replay or one whose thread is not alive throws InvalidOperationException and is unchanged; otherwise it is suspended |
| Replaying.Replay.ApplyWrite | samples/csharp.memreplay/Replay.cs:504-515 | the RAM map applies the access as a write with its size code and the stamped cycle; the counter of that size code grows by one, and a code past the four counters throws IndexOutOfRangeException |
| Replaying.Replay.ApplyCr3 | samples/csharp.memreplay/Replay.cs:558-565 | the page directory becomes the entry's and the switch count grows by one |
| Replaying.Replay.Apply | samples/csharp.memreplay/Replay.cs:595-596 | an entry goes to the apply method of the stream registered at its input: a switch sets the page directory, a screen dump changes nothing, a write is applied as ApplyWrite does, so the RAM map and the write counters become ApplyEntry of the old ones |
| Replaying.Replay.Step | samples/csharp.memreplay/Replay.cs:582-601 | one loop pass: the cycle becomes the entry's, the index grows by one, the entry is applied (a write as ApplyWrite states it, a switch sets the page directory), so the RAM map and the counters become ApplyEntry of the old ones; single-step mode suspends the replay afterwards, and an exception ends the thread |
| Replaying.Replay.StepAsWritten | samples/csharp.memreplay/Replay.cs:592-596 | as written: an entry whose input position names an empty slot fails with NullReferenceException, which the replay thread rethrows and which, unhandled, ends the process; any other entry is stepped |
| Replaying.Replay.Run | samples/csharp.memreplay/Replay.cs:579-611 | the loop applies every entry and ends the replay when the multiplexer is empty, or stops after one entry in single-step mode; the index grows by the entries applied, the switch count by the switches among them, the page directory is the last switch's, and the RAM map and counters are Replayed over the entries applied, the failing write included |
| ProgramArgs.Defaults | samples/csharp.memreplay/Program.cs:43-46 | exactly the options -s, -m and -r take a value |
| ProgramArgs.ScanArgs | samples/csharp.memreplay/Program.cs:53-85 | the argument loop never removes an option from the value table |
| ProgramArgs.ParseUInt32 | samples/csharp.memreplay/Program.cs:97-106 | Convert.ToUInt32 accepts only values below 2^32 |
| ProgramArgs.ParseDigits | samples/csharp.memreplay/Program.cs:99 | plain decimal digits convert to their value exactly when it fits 32 bits, and otherwise overflow |
| ProgramArgs.SignedTrimmed | samples/csharp.memreplay/Program.cs:99 | a leading '+' keeps the digits' value; a leading '-' is only accepted on zero |
| ProgramArgs.ParsePadded | samples/csharp.memreplay/Program.cs:99 | white space around an optionally signed digit string does not change its value |
| ProgramArgs.ParseAccepted | samples/csharp.memreplay/Program.cs:99 | conversely, every accepted string is white space, an optional sign, digits and white space, and converts to the signed value of those digits |
| ProgramArgs.ParseCommandLine | samples/csharp.memreplay/Program.cs:37-112 | Main's argument loop and the checks after it give the outcome CommandLineOf states |
| ProgramArgs.ScanUnnamed | samples/csharp.memreplay/Program.cs:76-80 | the store name is only ever set from the last argument |
| ProgramArgs.StoreIsLast | samples/csharp.memreplay/Program.cs:76-112 | a launched replay opens the store named by the last argument |
| ProgramArgs.ScanOptionValues | samples/csharp.memreplay/Program.cs:55-75 | during the loop, an option keeps its default unless an argument names it and the next argument is its value |
| ProgramArgs.OptionValuesFollowOptions | samples/csharp.memreplay/Program.cs:55-112 | the server and memory stream of a launched replay are their defaults or the argument after their option |
| ProgramArgs.DefaultsOnly | samples/csharp.memreplay/Program.cs:44-112 | a store name alone launches with the default server, memory stream and 512 MiB |
| ProgramArgs.OptionWithoutValue | samples/csharp.memreplay/Program.cs:55-89 | an option followed by an option, the switch or an argument starting with '-' lacks its value |
| ProgramArgs.OptionLast | samples/csharp.memreplay/Program.cs:87-89 | an option as last argument lacks its value |
| ProgramArgs.UnknownArgument | samples/csharp.memreplay/Program.cs:76-83 | an argument that is not an option, the switch or a value is rejected unless it is last |
| ProgramArgs.HelpAndMissingStore | samples/csharp.memreplay/Program.cs:90-95 | -h asks for the help text even without a store; no arguments lack the store name |
| ProgramArgs.InvalidRamSize | samples/csharp.memreplay/Program.cs:97-103 | a RAM size that is no number is rejected as invalid |
| ProgramArgs.SignedRamSize | samples/csharp.memreplay/Program.cs:97-99 | a RAM size with white space and a '+' sign is accepted as the plain number |
| ProgramArgs.PaddedRamSize | samples/csharp.memreplay/Program.cs:99 | the RAM size " +512 " is converted to 512 |
| ProgramArgs.EmptyValue | samples/csharp.memreplay/Program.cs:69 | an empty value after an option throws IndexOutOfRangeException where its first character is read |
| Multiplexing.CycleOf | simutrace/libsimutraceX/StreamMultiplexer.cpp:64-66 | a temporal entry's cycle count is its first word masked to 48 bits, and a non-temporal one gets INVALID_CYCLE_COUNT |
| Multiplexing.Create | simutrace/libsimutraceX/StreamMultiplexer.cpp:107-238 | fewer than two inputs throw ArgumentException; the cycle-count rule over a non-temporal input throws; different input types without MxfIndirect throw; otherwise the multiplexer is indirect when asked or when the types differ, and temporal when every input is |
| Multiplexing.Reinsert | simutrace/libsimutraceX/StreamMultiplexer.cpp:378-394 | putting a stream back into the list adds exactly that stream |
| Multiplexing.ReinsertPlacement | simutrace/libsimutraceX/StreamMultiplexer.cpp:381-392 | the advanced stream goes after exactly the streams at the front with a strictly lower cycle count |
| Multiplexing.ReinsertSorted | simutrace/libsimutraceX/StreamMultiplexer.cpp:372-394 | putting the advanced head back into a sorted tail keeps the list sorted by cycle count |
| Multiplexing.SortByCycle | simutrace/libsimutraceX/StreamMultiplexer.cpp:291-294 | the std::sort of _open yields a permutation of the list sorted by cycle count |
| Multiplexing.RemoveMembers | simutrace/libsimutraceX/StreamMultiplexer.cpp:346 | erasing the list element at the index removes exactly that stream |
| Multiplexing.RemoveSorted | simutrace/libsimutraceX/StreamMultiplexer.cpp:346 | erasing an element keeps the list sorted |
| Multiplexing.Next | simutrace/libsimutraceX/StreamMultiplexer.cpp:318-412 | the state after a call is well formed, and its index points into the list whenever the list is not empty |
| Multiplexing.NextOpened | simutrace/libsimutraceX/StreamMultiplexer.cpp:318-412 | every call keeps the handle consistent: each listed stream holds its current entry, every input with entries left is listed, no stream is listed twice, and under the cycle-count rule the list stays sorted |
| Multiplexing.HandedFromInput | simutrace/libsimutraceX/StreamMultiplexer.cpp:405-408 | the entry handed out is an entry of its input stream, with that entry's cycle count |
| Multiplexing.HandedNullAtEnd | simutrace/libsimutraceX/StreamMultiplexer.cpp:331-357 | null is handed out exactly when the list is empty, and then every input has been read to its end |
| Multiplexing.HandedLowest | simutrace/libsimutraceX/StreamMultiplexer.cpp:367-371 | under the cycle-count rule the entry handed out has the lowest cycle count of all current entries |
| Multiplexing.NextNotBelow | simutrace/libsimutraceX/StreamMultiplexer.cpp:367-394 | under the cycle-count rule over ordered inputs, each entry handed out has a cycle count no lower than the one before it |
| Multiplexing.HeadIsMinimal | simutrace/libsimutraceX/StreamMultiplexer.cpp:367-371 | the head of the list has the lowest cycle count of every entry not yet handed out |
| Multiplexing.Handle.Update | simutrace/libsimutraceX/StreamMultiplexer.cpp:56-70 | taking the next entry of input s succeeds exactly while it has entries left, and then records that entry's cycle count; at the end nothing changes |
| Multiplexing.Handle.Open | simutrace/libsimutraceX/StreamMultiplexer.cpp:254-304 | the new handle is consistent with index -1: every input with entries has its first entry current and is listed, in input order under round robin |
| Multiplexing.Handle.GetNextEntry | simutrace/libsimutraceX/StreamMultiplexer.cpp:318-412 | the handle moves to the state Next gives and hands out the entry at its index, or null |
| Multiplexing.Handle.Current | simutrace/libsimutraceX/StreamMultiplexer.cpp:405-408 | the entry at the index, or null when the list is empty |
| Multiplexing.Handle.Advance | simutrace/libsimutraceX/StreamMultiplexer.cpp:329-403 | the state change of one call is the one Next specifies |
| Multiplexing.Handle.SortList | simutrace/libsimutraceX/StreamMultiplexer.cpp:291-294 | the list becomes sorted by cycle count and keeps its members |
| Multiplexing.Handle.ShiftHead | simutrace/libsimutraceX/StreamMultiplexer.cpp:381-392 | the shifting loop leaves the list Reinsert gives for the advanced head |
| Multiplexing.IncreasingUnique | simutrace/libsimutraceX/StreamMultiplexer.cpp:273-283 | a list built in strictly increasing input order holds no input twice |
| VariableData.GetSizeHint | simutrace/include/SimuStorTypes.h:218-222 | the hint has the flag bit clear and keeps every other bit of the entry size |
| VariableData.ClampHint | simutrace/include/SimuStorTypes.h:189-191 | the clamped hint is the hint or VARIABLE_ENTRY_MAX_SIZE, and never above it |
| VariableData.FlagRoundTrip | simutrace/include/SimuStorTypes.h:193-222 | a value below 2^31 with the flag set is a variable entry size whose hint is that value |
| VariableData.MakeVariableEntrySize | simutrace/include/SimuStorTypes.h:184-194 | the result is a variable entry size whose hint is the clamped hint, above the header size and at most VARIABLE_ENTRY_MAX_SIZE |
| VariableData.HeaderBytes | simutrace/include/SimuStorTypes.h:265-282 | a block header takes two bytes |
| VariableData.ParseHeaderBytes | simutrace/include/SimuStorTypes.h:265-304 | reading back a written header gives its continuation bit and size |
| VariableData.BlocksUsedMeaning | simutrace/include/SimuStorTypes.h:254-287 | writeVariableData fills whole blocks that fit the destination, their data bytes are all of the data or the blocks' capacity, and it stops short of the data only when the next block would not fit |
| VariableData.EncodeBlocksLength | simutrace/include/SimuStorTypes.h:254-287 | the bytes written are BlocksUsed blocks of sizeHint bytes |
| VariableData.EncodeContinues | simutrace/include/SimuStorTypes.h:274-287 | while data is left and another block fits, the encoding is the first block followed by the encoding of the rest in the room left |
| VariableData.EncodeEnds | simutrace/include/SimuStorTypes.h:274-287 | otherwise the first block is the whole encoding |
| VariableData.CopyBytes | simutrace/include/SimuStorTypes.h:270 | memcpy: the bytes land at the offset and nothing else changes |
| VariableData.RunWriteWritten | simutrace/include/SimuStorTypes.h:254-287 | the loop appends the encoding of the data to the blocks already written |
| VariableData.RunWriteRest | simutrace/include/SimuStorTypes.h:262-284 | the data left unconsumed is what the blocks do not hold |
| VariableData.RunWriteBlocks | simutrace/include/SimuStorTypes.h:255-289 | the loop counts BlocksUsed blocks |
| VariableData.BlockLayout | simutrace/include/SimuStorTypes.h:260-281 | a block is its header, its chunk and, for the last chunk, zeros up to sizeHint |
| VariableData.StorePass | simutrace/include/SimuStorTypes.h:255-285 | one loop pass counts a block, stores it at the position and moves past it, consuming its chunk |
| VariableData.WritePass | simutrace/include/SimuStorTypes.h:255-285 | one pass advances the loop state as StoreBlock says and keeps the bytes behind the blocks |
| VariableData.WriteVariableData | simutrace/include/SimuStorTypes.h:235-291 | a destination smaller than a block is left alone and 0 is returned; otherwise the destination starts with the encoding and keeps the bytes behind it, and the data bytes consumed and blocks written are BytesUsed and BlocksUsed |
| VariableData.WriteBlocks | simutrace/include/SimuStorTypes.h:254-291 | the do-while loop writes the blocks RunWrite gives and returns their data bytes and count |
| VariableData.DecodeBlock | simutrace/include/SimuStorTypes.h:303-317 | reading one well-formed block collects its chunk, and stops there when it has no continuation |
| VariableData.DecodeEncode | simutrace/include/SimuStorTypes.h:294-329 | reading back what writeVariableData stored gives the data consumed, complete exactly when the whole entry was stored |
| VariableData.DecodeEncodeLast | simutrace/include/SimuStorTypes.h:314-317 | reading the last block of an entry gives the data and reports it complete |
| VariableData.ReadVariableData | simutrace/include/SimuStorTypes.h:294-329 | the loop returns the completeness and data DecodeFrom gives |
| VariableData.EntryBlocks | simutrace/include/SimuStorTypes.h:254-287 | an entry stored whole takes at least one block |
| VariableData.EncodeWhole | simutrace/include/SimuStorTypes.h:254-287 | with room for all the data, the encoding is exactly the entry's blocks |
| VariableData.EncodeEntries | simutrace/include/SimuStorTypes.h:235-291 | the entries stored whole one after another, one block chain per entry |
| VariableData.EntryBlocksIsEntry | simutrace/include/SimuStorTypes.h:274-282 | a whole entry's blocks are sizeHint bytes each, and exactly the last one has no continuation |
| VariableData.FindPastEntry | simutrace/include/SimuStorTypes.h:340-357 | scanning an entry with the block stride finds its last block when it completes the count, and otherwise goes on behind the entry |
| VariableData.FindInEntries | simutrace/include/SimuStorTypes.h:332-360 | with the block stride, the search for entry k finds the last block of entry k; entry 0 and entries past the last are not found |
| VariableData.FindWholeEntries | simutrace/include/SimuStorTypes.h:332-360 | the same over entries that writeVariableData stored whole one after another |
| VariableData.FindVariableEntry | simutrace/include/SimuStorTypes.h:332-360 | the loop as written answers what the header-stride scan FindAt gives |
| VariableData.FindMisreadsPadding | simutrace/include/SimuStorTypes.h:352-356 | two one-byte entries with hint 4: stepping by the header's size lands in the padding, answers offset 3 for entry 2 where the block is at 4, and runs past the buffer looking for entry 3 |
| FcmHistories.WrapAround | simutrace/storageserver/simtrace/VPC4/CyclePredictor.h:90-123 | 64-bit wrap-around cancels: subtracting what was added, or adding back what was subtracted, gives the value back |
| FcmHistories.FourShifts | simutrace/storageserver/simtrace/VPC4/FiniteContextMethodHistory.h:49-52 | four right shifts by 17 or 19 bits clear any 64-bit value, so the loop of _hash ends after at most four turns |
| FcmHistories.FoldStep | simutrace/storageserver/simtrace/VPC4/FiniteContextMethodHistory.h:49-52 | one turn of the loop XORs in the low 32 bits of tmp and shifts it, and keeps the fold's final value |
| FcmHistories.HashBounded | simutrace/storageserver/simtrace/VPC4/FiniteContextMethodHistory.h:43-55 | a hash has at most hashSize bits, so masking it again changes nothing |
| FcmHistories.KeyIndex | simutrace/storageserver/simtrace/VPC4/FiniteContextMethodHistory.h:64-68 | the row a key selects lies inside the table |
| FcmHistories.InitialHistory | simutrace/storageserver/simtrace/VPC4/FiniteContextMethodHistory.h:58-62 | a new history has 2^tableSize rows of order zero slots, with row 0 selected |
| FcmHistories.HistoryUpdate | simutrace/storageserver/simtrace/VPC4/FiniteContextMethodHistory.h:82-92 | an update keeps the table's shape |
| FcmHistories.Updates | simutrace/storageserver/simtrace/VPC4/FiniteContextMethodHistory.h:82-92 | a row keeps its length through any number of updates |
| FcmHistories.SlotIsContext | simutrace/storageserver/simtrace/VPC4/FiniteContextMethodHistory.h:82-92 | slot i of a row depends only on the last i + 1 values once the row has seen that many, whatever it held before |
| FcmHistories.LastTwo | simutrace/storageserver/simtrace/VPC4/FiniteContextMethodHistory.h:86-91 | slot 0 is the hash of the last value, and slot 1 the hash of the value before it shifted left and XORed with the last hash |
| FcmHistories.History.constructor | simutrace/storageserver/simtrace/VPC4/FiniteContextMethodHistory.h:58-62 | every slot of every row is zero and row 0 is selected |
| FcmHistories.History.SetKey | simutrace/storageserver/simtrace/VPC4/FiniteContextMethodHistory.h:64-68 | the selected row becomes key & _tableMask |
| FcmHistories.History.Get | simutrace/storageserver/simtrace/VPC4/FiniteContextMethodHistory.h:70-74 | reads slot predictorOrder - 1 of the selected row |
| FcmHistories.History.Set | simutrace/storageserver/simtrace/VPC4/FiniteContextMethodHistory.h:76-80 | only slot predictorOrder - 1 of the selected row changes |
| FcmHistories.History.HashOf | simutrace/storageserver/simtrace/VPC4/FiniteContextMethodHistory.h:43-55 | _hash computes the masked fold Hash specifies |
| FcmHistories.History.FoldLoop | simutrace/storageserver/simtrace/VPC4/FiniteContextMethodHistory.h:46-52 | the loop of _hash computes the fold |
| FcmHistories.History.Update | simutrace/storageserver/simtrace/VPC4/FiniteContextMethodHistory.h:82-92 | the selected row shifts in the value's hash, slot i becoming slot i - 1 shifted left and XORed with it; no other row changes |
| FcmPredictors.NewContext | simutrace/storageserver/simtrace/VPC4/Predictor.h:52-55 | a fresh prediction context has usage count 0 and is not predicted |
| FcmPredictors.IdOf | simutrace/storageserver/simtrace/VPC4/FiniteContextMethodPredictor.h:139 | slot i's id i + _idBase belongs to the predictor, names slot i and is never INVALID_PREDICTOR_INDEX |
| FcmPredictors.InitialFrom | simutrace/storageserver/simtrace/VPC4/FiniteContextMethodPredictor.h:82-86 | an initial line has one value per slot |
| FcmPredictors.InitialSteps | simutrace/storageserver/simtrace/VPC4/FiniteContextMethodPredictor.h:80-86 | an initial line counts up from its first value in steps of one, so no value appears twice |
| FcmPredictors.PushedFront | simutrace/storageserver/simtrace/VPC4/FiniteContextMethodPredictor.h:89-106 | after _update the most recent value is v and the length is kept; a line already starting with v is unchanged, otherwise every value moves back one slot |
| FcmPredictors.PushedIdempotent | simutrace/storageserver/simtrace/VPC4/FiniteContextMethodPredictor.h:93-98 | pushing the same value twice is pushing it once |
| FcmPredictors.SelectChosen | simutrace/storageserver/simtrace/VPC4/FiniteContextMethodPredictor.h:134-144 | the prediction loop leaves the context alone when no slot holds v with a usage count at least the context's; otherwise it names a slot holding v with the largest such count, the last one on ties |
| FcmPredictors.InitialFcm | simutrace/storageserver/simtrace/VPC4/FiniteContextMethodPredictor.h:78-123 | a new predictor has every line initial, its first usage count cleared and the other counts as the memory held them |
| FcmPredictors.Row | simutrace/storageserver/simtrace/VPC4/FiniteContextMethodPredictor.h:73-128 | the masked history hash selects a row of the value table |
| FcmPredictors.UpdateFcm | simutrace/storageserver/simtrace/VPC4/FiniteContextMethodPredictor.h:158-164 | update keeps the table's shape |
| FcmPredictors.IncrementUsage | simutrace/storageserver/simtrace/VPC4/Predictor.h:85-89 | incrementUsageCount keeps the table and the shape |
| FcmPredictors.PredictedValue | simutrace/storageserver/simtrace/VPC4/FiniteContextMethodPredictor.h:125-147 | a context from another predictor is taken over exactly when some slot of the current row holds v with a usage count at least the context's; then getValue of the named id gives v |
| FcmPredictors.PredictOwnsOrKeeps | simutrace/storageserver/simtrace/VPC4/FiniteContextMethodPredictor.h:134-144 | predictValue keeps the context or names one of its own ids with a usage count at least the old one |
| FcmPredictors.UpdateAgrees | simutrace/storageserver/simtrace/VPC4/FiniteContextMethodPredictor.h:146-164 | predictValue and update leave the same table; afterwards getValue of the first id is v and every other row is unchanged |
| FcmPredictors.FcmPredictor.constructor | simutrace/storageserver/simtrace/VPC4/FiniteContextMethodPredictor.h:109-123 | the state is InitialFcm over the given history |
| FcmPredictors.FcmPredictor.CurrentRow | simutrace/storageserver/simtrace/VPC4/FiniteContextMethodPredictor.h:128 | the row selected by the history's current hash |
| FcmPredictors.FcmPredictor.PredictValue | simutrace/storageserver/simtrace/VPC4/FiniteContextMethodPredictor.h:125-147 | the loop and _update give the context and the table Predict specifies |
| FcmPredictors.FcmPredictor.GetValueOf | simutrace/storageserver/simtrace/VPC4/FiniteContextMethodPredictor.h:149-156 | reads slot id - _idBase of the current row |
| FcmPredictors.FcmPredictor.Update | simutrace/storageserver/simtrace/VPC4/FiniteContextMethodPredictor.h:158-164 | the table becomes UpdateFcm of the old one |
| FcmPredictors.FcmPredictor.UpdateRow | simutrace/storageserver/simtrace/VPC4/FiniteContextMethodPredictor.h:89-106 | shifting the row in place from the last slot down gives Pushed of the old row; other rows are unchanged |
| FcmPredictors.FcmPredictor.IncrementUsageCount | simutrace/storageserver/simtrace/VPC4/Predictor.h:85-89 | the usage count of the id's slot grows by one |
| FcmPairs.End | simutrace/storageserver/simtrace/VPC4/IpPredictor.h:37-50 | the pair's ids are exactly those below the first id after them |
| FcmPairs.PairUpdate | simutrace/storageserver/simtrace/VPC4/IpPredictor.h:95-96 | updating both predictors keeps the history and the usage counts |
| FcmPairs.PairPredict | simutrace/storageserver/simtrace/VPC4/IpPredictor.h:79-80 | predicting with both predictors leaves their tables as update does |
| FcmPairs.PairCredit | simutrace/storageserver/simtrace/VPC4/CompoundPredictor.h:114-122 | crediting the predicting predictor changes only usage counts |
| FcmPairs.HistoryStep | simutrace/storageserver/simtrace/VPC4/IpPredictor.h:82-98 | updating the shared history leaves both predictors unchanged |
| FcmPairs.PairSetKey | simutrace/storageserver/simtrace/VPC4/FiniteContextMethodHistory.h:64-68 | setting the key of the shared history selects that row |
| FcmPairs.EncodeStep | simutrace/storageserver/simtrace/VPC4/IpPredictor.h:75-84 | the context of an encoding step is predicted exactly when one of the pair owns its id |
| FcmPairs.DecodeStep | simutrace/storageserver/simtrace/VPC4/IpPredictor.h:95-98 | a decoding step keeps the shape |
| FcmPairs.PairPredicted | simutrace/storageserver/simtrace/VPC4/IpPredictor.h:79-80 | a context neither predictor owns is taken over exactly when one of the two current rows holds v with a usage count at least the context's, and the named id then gives v |
| FcmPairs.AgreeStep | simutrace/storageserver/simtrace/VPC4/IpPredictor.h:57-98 | pairs with the same history and tables give the same values and stay alike through update and the history update |
| FcmPairs.StepsAgree | simutrace/storageserver/simtrace/VPC4/IpPredictor.h:72-101 | from alike pairs, the id an encoding step emits names v on the decoder's side, and the encoder and decoder stay alike |
| FcmPairs.InitialPair | simutrace/storageserver/simtrace/VPC4/IpPredictor.h:67-70 | a new pair has a zeroed history and two initial predictors |
| FcmPairs.FcmPair.constructor | simutrace/storageserver/simtrace/VPC4/IpPredictor.h:67-70 | the state is InitialPair |
| FcmPairs.FcmPair.PredictValue | simutrace/storageserver/simtrace/VPC4/IpPredictor.h:79-80 | the context and state PairPredict gives |
| FcmPairs.FcmPair.Observe | simutrace/storageserver/simtrace/VPC4/IpPredictor.h:75-84 | both predictions, the history update and the credit, as EncodeStep says |
| FcmPairs.FcmPair.Learn | simutrace/storageserver/simtrace/VPC4/IpPredictor.h:95-98 | both updates and the history update, as DecodeStep says |
| FcmPairs.FcmPair.Look | simutrace/storageserver/simtrace/VPC4/IpPredictor.h:79-82 | both predictions, then the history update |
| FcmPairs.FcmPair.GetValueOf | simutrace/storageserver/simtrace/VPC4/IpPredictor.h:56-59 | getValue of the predictor owning the id |
| FcmPairs.FcmPair.Update | simutrace/storageserver/simtrace/VPC4/IpPredictor.h:95-96 | both predictors are updated |
| FcmPairs.FcmPair.Credit | simutrace/storageserver/simtrace/VPC4/CompoundPredictor.h:114-122 | the predicting predictor's usage count grows by one |
| FcmPairs.FcmPair.UpdateHistory | simutrace/storageserver/simtrace/VPC4/IpPredictor.h:82 | the shared history is updated |
| FcmPairs.FcmPair.SetKey | simutrace/storageserver/simtrace/VPC4/FiniteContextMethodHistory.h:64-68 | the shared history's key is set |
| LastNValue.SetKeyState | simutrace/storageserver/simtrace/VPC4/KeyedLastNValuePredictor.h:53-59 | setting the key keeps the selected row and the table's shape |
| LastNValue.KeySelectsRow | simutrace/storageserver/simtrace/VPC4/KeyedLastNValuePredictor.h:53-59 | after setKey the predictor reads the line of the key's low 32 bits masked to tableSize bits, whatever was set before |
| LastNValue.MostRecentAfterUpdate | simutrace/storageserver/simtrace/VPC4/KeyedLastNValuePredictor.h:61-64 | after update(v) under the same key the most recent value is v, and the other keys' lines are unchanged |
| LastNValue.LastNValuePredictor.constructor | simutrace/storageserver/simtrace/VPC4/KeyedLastNValuePredictor.h:48-51 | an FCM of order 1 over a fresh one-slot history |
| LastNValue.LastNValuePredictor.SetKey | simutrace/storageserver/simtrace/VPC4/KeyedLastNValuePredictor.h:53-59 | the history's only slot becomes the key truncated to 32 bits, and the FCM then reads the key's line |
| LastNValue.LastNValuePredictor.GetMostRecentValue | simutrace/storageserver/simtrace/VPC4/KeyedLastNValuePredictor.h:61-64 | the first slot of the current line |
| Compound.Cursor.constructor | simutrace/storageserver/simtrace/VPC4/CompoundPredictor.h:49-107 | a cursor starts at the start of its buffer |
| Compound.Cursor.Write | simutrace/storageserver/simtrace/VPC4/CompoundPredictor.h:60-97 | the element at the cursor becomes x and the cursor moves on by one |
| Compound.Cursor.Read | simutrace/storageserver/simtrace/VPC4/CompoundPredictor.h:82-107 | the element at the cursor is returned and the cursor moves on by one |
| Compound.Evaluate | simutrace/storageserver/simtrace/VPC4/CompoundPredictor.h:109-139 | a predicted context emits its id with no datum; otherwise NotPredictedId is emitted with the value itself; the id never exceeds NotPredictedId |
| Compound.EvaluateContext | simutrace/storageserver/simtrace/VPC4/CompoundPredictor.h:109-139 | the id is written to the code buffer, and the value to the data buffer exactly when not predicted, each cursor moving on by what it wrote |
| Compound.ReadNext | simutrace/storageserver/simtrace/VPC4/CompoundPredictor.h:68-107 | reading back takes the next id and, for NotPredictedId, the next datum |
| Compound.Emit | simutrace/storageserver/simtrace/VPC4/CompoundPredictor.h:109-139 | emitting n values writes n ids |
| Compound.ReadCoded | simutrace/storageserver/simtrace/VPC4/CompoundPredictor.h:68-89 | a decoded emission is well formed and consumes data only forward |
| Compound.ReadAll | simutrace/storageserver/simtrace/VPC4/CompoundPredictor.h:68-107 | reading n ids gives n emissions within the data written |
| Compound.ReadEmitted | simutrace/storageserver/simtrace/VPC4/CompoundPredictor.h:49-139 | reading back what a sequence of emissions wrote gives exactly those emissions and uses up exactly the data written |
| Compound.ReadPrefix | simutrace/storageserver/simtrace/VPC4/CompoundPredictor.h:68-107 | reading n ids looks only at those ids and the data they consume, so appending to the buffers changes nothing |
| IpPrediction.EncodeIp | simutrace/storageserver/simtrace/VPC4/IpPredictor.h:72-85 | encodeIp emits a well-formed id, with the ip as datum only under NotPredictedId |
| IpPrediction.DecodeIp | simutrace/storageserver/simtrace/VPC4/IpPredictor.h:87-101 | decodeIp keeps the predictor's shape |
| IpPrediction.EncodeDecode | simutrace/storageserver/simtrace/VPC4/IpPredictor.h:72-101 | from alike encoder and decoder, decodeIp after encodeIp yields the same ip and both sides stay alike |
| IpPrediction.EncodeIps | simutrace/storageserver/simtrace/VPC4/IpPredictor.h:72-85 | encoding n ips emits n well-formed ids |
| IpPrediction.DecodeIps | simutrace/storageserver/simtrace/VPC4/IpPredictor.h:87-101 | decoding n emissions yields n ips |
| IpPrediction.EncodeIpsSnoc | simutrace/storageserver/simtrace/VPC4/IpPredictor.h:72-85 | encoding one more ip appends one emission |
| IpPrediction.DecodeIpsSnoc | simutrace/storageserver/simtrace/VPC4/IpPredictor.h:87-101 | decoding one more emission appends one ip |
| IpPrediction.RoundTrip | simutrace/storageserver/simtrace/VPC4/IpPredictor.h:72-101 | a whole stream round-trips: decoding what was encoded gives back the ips, and the two sides stay alike |
| IpPrediction.BuffersRoundTrip | simutrace/storageserver/simtrace/VPC4/IpPredictor.h:52-101 | the code and data buffers the encoder fills read back to the emissions, which decode to the ips |
| IpPrediction.IpPredictor.constructor | simutrace/storageserver/simtrace/VPC4/IpPredictor.h:67-70 | a zeroed shared history and the first- and third-order predictors at ids 0 and 2 |
| IpPrediction.IpPredictor.Encode | simutrace/storageserver/simtrace/VPC4/IpPredictor.h:72-85 | the state moves as EncodeIp says, the id goes to the code buffer and an unpredicted ip to the data buffer |
| IpPrediction.IpPredictor.Decode | simutrace/storageserver/simtrace/VPC4/IpPredictor.h:87-101 | reads the next emission, returns the ip it names and moves the state as DecodeIp says |
| CyclePrediction.EncodeCycle | simutrace/storageserver/simtrace/VPC4/CyclePredictor.h:85-103 | encodeCycle emits a well-formed id and makes the cycle count the new reference |
| CyclePrediction.DecodeCycle | simutrace/storageserver/simtrace/VPC4/CyclePredictor.h:105-126 | the cycle count decoded is the new reference |
| CyclePrediction.WithReference | simutrace/storageserver/simtrace/VPC4/CyclePredictor.h:128-131 | setCycleCount replaces the reference and nothing else |
| CyclePrediction.DecodeRecoversPredicted | simutrace/storageserver/simtrace/VPC4/CyclePredictor.h:60-125 | a predicted id naming the stride plus the ip decodes to the cycle count, and the predictors take the predicted value |
| CyclePrediction.DecodeRecoversStride | simutrace/storageserver/simtrace/VPC4/CyclePredictor.h:68-125 | an unpredicted emission carrying the stride decodes to the cycle count, and the predictors take stride plus ip |
| CyclePrediction.DecodeRecovers | simutrace/storageserver/simtrace/VPC4/CyclePredictor.h:105-126 | either way the decoder recovers the cycle count and feeds the predictors the value the encoder fed them |
| CyclePrediction.EncodeDecode | simutrace/storageserver/simtrace/VPC4/CyclePredictor.h:85-126 | from alike sides, decodeCycle with the same ip after encodeCycle yields the cycle count and both sides stay alike |
| CyclePrediction.EncodeCycles | simutrace/storageserver/simtrace/VPC4/CyclePredictor.h:85-103 | encoding n events emits n well-formed ids |
| CyclePrediction.DecodeCycles | simutrace/storageserver/simtrace/VPC4/CyclePredictor.h:105-126 | decoding n emissions yields n cycle counts |
| CyclePrediction.Ips | simutrace/storageserver/simtrace/VPC4/CyclePredictor.h:85-86 | the ips of the events, in order |
| CyclePrediction.Cycles | simutrace/storageserver/simtrace/VPC4/CyclePredictor.h:85-86 | the cycle counts of the events, in order |
| CyclePrediction.EncodeCyclesSnoc | simutrace/storageserver/simtrace/VPC4/CyclePredictor.h:85-103 | encoding one more event appends one emission |
| CyclePrediction.DecodeCyclesSnoc | simutrace/storageserver/simtrace/VPC4/CyclePredictor.h:105-126 | decoding one more emission appends one cycle count |
| CyclePrediction.RoundTrip | simutrace/storageserver/simtrace/VPC4/CyclePredictor.h:85-126 | a whole stream round-trips: decoding with the same ips gives back the cycle counts, and both sides stay alike |
| CyclePrediction.CyclePredictor.constructor | simutrace/storageserver/simtrace/VPC4/CyclePredictor.h:76-83 | a fresh predictor pair and the given reference cycle count |
| CyclePrediction.CyclePredictor.Encode | simutrace/storageserver/simtrace/VPC4/CyclePredictor.h:85-103 | the state moves as EncodeCycle says, the id goes to the code buffer and an unpredicted stride to the data buffer |
| CyclePrediction.CyclePredictor.Predict | simutrace/storageserver/simtrace/VPC4/CyclePredictor.h:88-100 | the context and the stride _evaluateContext receives, and the new state |
| CyclePrediction.CyclePredictor.Decode | simutrace/storageserver/simtrace/VPC4/CyclePredictor.h:105-126 | reads the next emission and moves as DecodeCycle says |
| CyclePrediction.CyclePredictor.Replay | simutrace/storageserver/simtrace/VPC4/CyclePredictor.h:108-125 | decoding a known emission gives the state and cycle count DecodeCycle says |
| CyclePrediction.CyclePredictor.SetCycleCount | simutrace/storageserver/simtrace/VPC4/CyclePredictor.h:128-131 | the reference becomes the given cycle count |
| ValuePrediction.NotPredictedId | simutrace/storageserver/simtrace/VPC4/ValuePredictor.h:87-91 | the not-predicted id is the first id after the FCM's range |
| ValuePrediction.ValueConfigIds | simutrace/storageserver/simtrace/VPC4/ValuePredictor.h:45-102 | the source's configuration is consistent: ids 0-1 are the first-order DFCM's, 2-3 the third-order DFCM's, 4-7 the L4V's, 8-9 the FCM's, and 10 means not predicted |
| ValuePrediction.SetKeys | simutrace/storageserver/simtrace/VPC4/ValuePredictor.h:68-73 | the shared DFCM history and the FCM history select the key's row, the L4V's slot selects the key's line, and no table changes |
| ValuePrediction.Credit | simutrace/storageserver/simtrace/VPC4/ValuePredictor.h:129 | crediting the predictor that named the value keeps every history and value table, so a decoder is unaffected |
| ValuePrediction.Observe | simutrace/storageserver/simtrace/VPC4/ValuePredictor.h:114-127 | looking at a value keeps the predictor state well-shaped |
| ValuePrediction.Learn | simutrace/storageserver/simtrace/VPC4/ValuePredictor.h:144-155 | learning a value keeps the predictor state well-shaped |
| ValuePrediction.EncodeValue | simutrace/storageserver/simtrace/VPC4/ValuePredictor.h:104-130 | encodeValue emits either a predicted id below 10 or the value itself under id 10 |
| ValuePrediction.DecodeValue | simutrace/storageserver/simtrace/VPC4/ValuePredictor.h:132-158 | decodeValue keeps the predictor state well-shaped |
| ValuePrediction.StrideObserved | simutrace/storageserver/simtrace/VPC4/ValuePredictor.h:79-118 | when a DFCM names the stride, its value plus the most recent value is the value; otherwise the context is still empty |
| ValuePrediction.ObservedValue | simutrace/storageserver/simtrace/VPC4/ValuePredictor.h:75-122 | the id the predictors leave either names no predictor or names one whose value, as _getValue computes it, is the value |
| ValuePrediction.ObserveContext | simutrace/storageserver/simtrace/VPC4/ValuePredictor.h:114-122 | the context that looking at a value leaves is the one the DFCM pair hands to the last-value predictor and that predictor hands to the keyed FCM, in that order |
| ValuePrediction.ObserveLearn | simutrace/storageserver/simtrace/VPC4/ValuePredictor.h:114-155 | from states that agree on histories and tables, the emitted id names the value on the decoding side, and afterwards both sides agree again |
| ValuePrediction.EncodeDecode | simutrace/storageserver/simtrace/VPC4/ValuePredictor.h:104-158 | decodeValue under the same key after encodeValue yields the value, and encoder and decoder agree again |
| ValuePrediction.EncodeValues | simutrace/storageserver/simtrace/VPC4/ValuePredictor.h:104-130 | encoding a stream emits one well-formed id per event |
| ValuePrediction.DecodeValues | simutrace/storageserver/simtrace/VPC4/ValuePredictor.h:132-158 | decoding a stream yields one value per emission |
| ValuePrediction.Keys | simutrace/storageserver/simtrace/VPC4/ValuePredictor.h:104-105 | the keys are the first components of the events, in order |
| ValuePrediction.Values | simutrace/storageserver/simtrace/VPC4/ValuePredictor.h:104-105 | the values are the second components of the events, in order |
| ValuePrediction.EncodeValuesSnoc | simutrace/storageserver/simtrace/VPC4/ValuePredictor.h:104-130 | encoding one more event appends that event's emission to the stream |
| ValuePrediction.DecodeValuesSnoc | simutrace/storageserver/simtrace/VPC4/ValuePredictor.h:132-158 | decoding one more emission appends that emission's value |
| ValuePrediction.RoundTrip | simutrace/storageserver/simtrace/VPC4/ValuePredictor.h:104-158 | a whole stream of (key, value) events round-trips: decoding the emissions under the same keys gives back the values, and the states agree afterwards |
| ValuePrediction.InitialValue | simutrace/storageserver/simtrace/VPC4/ValuePredictor.h:96-102 | a new value predictor has fresh, well-shaped histories and tables |
| ValuePrediction.KeyedFcm.constructor | simutrace/storageserver/simtrace/VPC4/ValuePredictor.h:60-101 | a private one-slot history with the FCM over it, both in their initial state |
| ValuePrediction.KeyedFcm.Look | simutrace/storageserver/simtrace/VPC4/ValuePredictor.h:122-127 | the FCM predicts on its history, then the history takes the value |
| ValuePrediction.KeyedFcm.Learn | simutrace/storageserver/simtrace/VPC4/ValuePredictor.h:150-155 | the FCM learns the value on its history, then the history takes the value |
| ValuePrediction.ValuePredictor.Valid | simutrace/storageserver/simtrace/VPC4/ValuePredictor.h:51-66 | a valid predictor's state is well-shaped for its configuration |
| ValuePrediction.ValuePredictor.constructor | simutrace/storageserver/simtrace/VPC4/ValuePredictor.h:96-102 | the new predictor's state is InitialValue of its configuration |
| ValuePrediction.ValuePredictor.SetKey | simutrace/storageserver/simtrace/VPC4/ValuePredictor.h:68-73 | the new state is SetKeys of the old one |
| ValuePrediction.ValuePredictor.MostRecentValue | simutrace/storageserver/simtrace/VPC4/ValuePredictor.h:114-144 | the most recent value is the L4V's first slot under the current key |
| ValuePrediction.ValuePredictor.PredictValue | simutrace/storageserver/simtrace/VPC4/ValuePredictor.h:114-127 | the context and new state are Observe of the old state |
| ValuePrediction.ValuePredictor.LookStride | simutrace/storageserver/simtrace/VPC4/ValuePredictor.h:117-126 | both DFCMs look at the stride, then the shared history takes it |
| ValuePrediction.ValuePredictor.LookLast | simutrace/storageserver/simtrace/VPC4/ValuePredictor.h:120 | the L4V looks at the value and nothing else changes |
| ValuePrediction.ValuePredictor.LookFcm | simutrace/storageserver/simtrace/VPC4/ValuePredictor.h:122-127 | the FCM looks at the value, then its history takes it |
| ValuePrediction.ValuePredictor.IncrementUsageCount | simutrace/storageserver/simtrace/VPC4/ValuePredictor.h:129 | the new state is Credit of the old one for the context |
| ValuePrediction.ValuePredictor.Update | simutrace/storageserver/simtrace/VPC4/ValuePredictor.h:144-155 | the new state is Learn of the old one |
| ValuePrediction.ValuePredictor.LearnStride | simutrace/storageserver/simtrace/VPC4/ValuePredictor.h:145-154 | both DFCMs and the shared history take the stride, nothing else changes |
| ValuePrediction.ValuePredictor.LearnLast | simutrace/storageserver/simtrace/VPC4/ValuePredictor.h:148 | the L4V takes the value, nothing else changes |
| ValuePrediction.ValuePredictor.LearnFcm | simutrace/storageserver/simtrace/VPC4/ValuePredictor.h:150-155 | the FCM and its history take the value, nothing else changes |
| StreamBuffers.ControlArea | simutrace/libsimustor/StreamBuffer.cpp:125-128 | the padded control area is whole pages, holds a control element and wastes less than a page |
| StreamBuffers.LineSize | simutrace/libsimustor/StreamBuffer.cpp:112-129 | a line holds the segment data and a control element, its padding is whole pages, and it is less than a page longer than needed |
| StreamBuffers.ControlAreaLeast | simutrace/libsimustor/StreamBuffer.cpp:114-128 | the padding is the least page multiple that holds a control element |
| StreamBuffers.NewGeometry | simutrace/libsimustor/StreamBuffer.cpp:31-44 | the constructor succeeds exactly for a valid id, the supported segment size and 1 to the maximum number of segments; the invalid id is an argument error, the rest not supported |
| StreamBuffers.SegmentOffset | simutrace/libsimustor/StreamBuffer.cpp:170-184 | getSegment succeeds exactly for a segment id below the segment count, and otherwise throws out of bounds |
| StreamBuffers.ControlOffset | simutrace/libsimustor/StreamBuffer.cpp:197-213 | getControlElement succeeds exactly for a segment id below the segment count, and otherwise throws out of bounds |
| StreamBuffers.SegmentLayout | simutrace/libsimustor/StreamBuffer.cpp:101-213 | a segment's control element follows its data, the line and its fence end inside the buffer, the fence size is not negative, the segment is page-aligned and the next line starts where this one ends |
| StreamBuffers.LineInside | simutrace/libsimustor/StreamBuffer.cpp:179-181 | a line of a segment below the count ends where the next begins, inside the buffer |
| StreamBuffers.PageAligned | simutrace/libsimustor/StreamBuffer.cpp:114-179 | every line starts on a page boundary |
| StreamBuffers.Fill | simutrace/libsimustor/StreamBuffer.cpp:131-156 | _testMemory answers a debug fill character exactly when the area is not empty and every byte equals it, and 0 otherwise |
| StreamBuffers.TestMemory | simutrace/libsimustor/StreamBuffer.cpp:131-156 | the loop answers Fill of the area |
| StreamBuffers.StreamBuffer.constructor | simutrace/libsimustor/StreamBuffer.cpp:31-68 | the buffer keeps the geometry and owns fresh memory of the buffer size |
| StreamBuffers.StreamBuffer.GetBufferSize | simutrace/libsimustor/StreamBuffer.cpp:342-345 | the buffer size is the length of the memory |
| StreamBuffers.StreamBuffer.GetSegment | simutrace/libsimustor/StreamBuffer.cpp:170-184 | getSegment answers SegmentOffset, and a whole line fits into the memory from the offset |
| StreamBuffers.StreamBuffer.GetControlElement | simutrace/libsimustor/StreamBuffer.cpp:197-213 | getControlElement answers ControlOffset, and a whole control element fits into the memory from the offset |
| StreamBuffers.NewStreamBuffer | simutrace/libsimustor/StreamBuffer.cpp:31-94 | the constructor throws what NewGeometry rejects with, and otherwise yields a fresh valid buffer of that geometry |
| StreamIndex.EntryCount | simutrace/include/simustor/Store.h:65-75 | getEntryCount is 0 without an entry index, always below 2^32, and end - start + 1 for an ordered range whose count fits in 32 bits |
| StreamIndex.MonotonicityMessageIndex | simutrace/storageserver/ServerStream.cpp:257-258 | the monotonicity message is "The specified range for index <i> violates monotonicity.", the digits in it reading back as the failing index |
| StreamIndex.CheckRange | simutrace/storageserver/ServerStream.cpp:237-272 | an ordered valid range passes exactly when it neither reaches back to a single-value predecessor nor forward to a single-value successor, and a reversed one never passes; a half-invalid range becomes entirely invalid and passes exactly when neither neighbour has a valid range; every refusal is a monotonicity error; a failure throws the monotonicity error of its index |
| StreamIndex.CheckedNormal | simutrace/storageserver/ServerStream.cpp:237-309 | what passes the check is ordered and valid, or entirely invalid |
| StreamIndex.InitialStats | simutrace/include/SimuStorTypes.h:579-583 | new statistics have zero counts and one invalid range per search tree |
| StreamIndex.Widen | simutrace/storageserver/ServerStream.cpp:312-321 | the widened statistics range is valid and covers both the stored range and the old statistics range, and each end is one of theirs |
| StreamIndex.WidenAllCovers | simutrace/storageserver/ServerStream.cpp:304-323 | after adding segments the statistics range is the tightest valid range covering every stored range |
| StreamIndex.LowerBound | simutrace/storageserver/ServerStream.cpp:752 | lower_bound is the first position whose start is not below the value |
| StreamIndex.Insert | simutrace/storageserver/ServerStream.cpp:310 | std::set::insert keeps the tree ordered by start, ignores a range whose start is present, and adds exactly the new entry otherwise |
| StreamIndex.InsertAt | simutrace/storageserver/ServerStream.cpp:310 | placing an entry at its lower bound keeps the order and every entry |
| StreamIndex.Find | simutrace/storageserver/ServerStream.cpp:741-775 | _findSequenceNumber answers a sequence number of some range in the tree, or the invalid one |
| StreamIndex.FindHolding | simutrace/storageserver/ServerStream.cpp:741-775 | with disjoint ranges, the lookup answers the segment whose range holds the value, and the invalid sequence number exactly when no range holds it |
| StreamIndex.InsertKeeps | simutrace/storageserver/ServerStream.cpp:741-775 | adding a range keeps every value found before findable |
| StreamIndex.RefSumRemove | simutrace/storageserver/ServerStream.cpp:45-46 | the reference total splits into one session's count plus the rest |
| StreamIndex.RefSumUpdate | simutrace/storageserver/ServerStream.cpp:609-610 | changing one session's count changes the reference total by the difference |
| ServerStreams.Placed | simutrace/storageserver/ServerStream.cpp:163-173 | the vector grows with holes up to the sequence number, holds the location there, and every other slot is unchanged |
| ServerStreams.RaisedLast | simutrace/storageserver/ServerStream.cpp:183-189 | the last sequence number becomes the larger of the old one and the new, or the new one while there was none |
| ServerStreams.PlacedShaped | simutrace/storageserver/ServerStream.cpp:163-189 | adding a location keeps the vector ending at the last sequence number |
| ServerStreams.PrevFrom | simutrace/storageserver/ServerStream.cpp:204-208 | the scan down finds the last occupied slot below the start, or reports that all are empty |
| ServerStreams.NextFrom | simutrace/storageserver/ServerStream.cpp:216-221 | the scan up finds the first occupied slot from the start on, or reports that all are empty |
| ServerStreams.PreviousAsWrittenDiffers | simutrace/storageserver/ServerStream.cpp:194-211 | _getPreviousSegment as written returns the previous occupied slot exactly unless the sequence number lies past the last one and the last slot is occupied |
| ServerStreams.PreviousAsWrittenExample | simutrace/storageserver/ServerStream.cpp:197-208 | with segments 0 and 1 present, the code as written names segment 0 as the predecessor of segment 2, the intended answer being 1 |
| ServerStreams.AddSegmentAsWrittenAccepts | simutrace/storageserver/ServerStream.cpp:197-272 | a location for segment 2 with ranges [3, 4] after single-value ranges [0, 0] and [5, 5] passes the check as written but is refused against its real predecessor |
| ServerStreams.Checked | simutrace/storageserver/ServerStream.cpp:237-272 | the range checks throw the monotonicity error of some failing index exactly when an index fails, and otherwise replace each checked range by its checked form and keep sizes and counts |
| ServerStreams.CheckedErrStays | simutrace/storageserver/ServerStream.cpp:237-272 | the first failing index decides the outcome of the whole loop |
| ServerStreams.CheckedAll | simutrace/storageserver/ServerStream.cpp:237-272 | the whole check passes exactly when every index passes, and what passes has only ordered or entirely invalid ranges |
| ServerStreams.IndexedTree | simutrace/storageserver/ServerStream.cpp:304-311 | a valid range with a new start is in the tree afterwards, and the tree stays ordered |
| ServerStreams.WidenedStat | simutrace/storageserver/ServerStream.cpp:312-321 | a statistics range widened by a valid range covers both it and the old statistics range |
| ServerStreams.AppendSqn | simutrace/storageserver/ServerStream.cpp:940-944 | append numbers the segment one past the last, wrapping in 32 bits, and throws exactly when that is the invalid sequence number |
| ServerStreams.AppendSqnFresh | simutrace/storageserver/ServerStream.cpp:936-957 | the first appended segment is 0, the appended number is the next free slot at the end of the vector, and append fails only once the last number is one below the invalid one |
| ServerStreams.ServerStream.constructor | simutrace/storageserver/ServerStream.cpp:98-107 | a new stream has no segments, invalid last sequence numbers, append index 0, empty trees and zero statistics |
| ServerStreams.ServerStream.AddSegmentLocation | simutrace/storageserver/ServerStream.cpp:156-192 | the location is placed, appended to the open list when referenced, and the last sequence number raised; nothing else changes |
| ServerStreams.ServerStream.GetPreviousSegmentAsWritten | simutrace/storageserver/ServerStream.cpp:194-211 | the loop answers PreviousAsWritten |
| ServerStreams.ServerStream.GetPreviousSegment | simutrace/storageserver/ServerStream.cpp:194-211 | the loop answers the last allocated segment below the sequence number, or none when every slot below it is empty |
| ServerStreams.ServerStream.GetNextSegment | simutrace/storageserver/ServerStream.cpp:213-224 | the loop answers the first allocated segment after the sequence number, or none when every later slot is empty |
| ServerStreams.ServerStream.CheckRanges | simutrace/storageserver/ServerStream.cpp:237-272 | the loop over the indices answers Checked |
| ServerStreams.ServerStream.IndexRanges | simutrace/storageserver/ServerStream.cpp:303-323 | each tree takes the location's valid range and each statistics range is widened by it; nothing else changes |
| ServerStreams.ServerStream.CountLocation | simutrace/storageserver/ServerStream.cpp:325-329 | the compressed size, entry count and raw entry count statistics grow by the location's, modulo 2^64 |
| ServerStreams.ServerStream.PlaceLocation | simutrace/storageserver/ServerStream.cpp:275-298 | a segment loaded from the store gets a new unreferenced location and may raise the last append index; a segment being completed receives its storage location |
| ServerStreams.ServerStream.AddSegment | simutrace/storageserver/ServerStream.cpp:226-332 | _addSegment, with the intended predecessor: a failed check throws and changes nothing, otherwise the location is stored, indexed in the trees and counted in the statistics |
| ServerStreams.ServerStream.AddSegmentAsWritten | simutrace/storageserver/ServerStream.cpp:226-332 | _addSegment with the predecessor as written, otherwise the same effect |
| ServerStreams.ServerStream.AddSegmentAfter | simutrace/storageserver/ServerStream.cpp:235-332 | the body of _addSegment for a given predecessor |
| ServerStreams.ServerStream.FindSequenceNumber | simutrace/storageserver/ServerStream.cpp:741-819 | a tree lookup for the tree-based types, the value truncated to 32 bits for QSequenceNumber, the next allocated segment or the invalid number for QNextValidSequenceNumber, and NotSupported otherwise |
| ServerStreams.ServerStream.Close | simutrace/storageserver/ServerStream.cpp:1147-1204 | an unallocated segment is an invalid operation and a session without references an error naming the session and the sequence number; the last reference is handed on; otherwise the count and the session's count drop by one and a session reaching zero leaves the map |
| ServerStreams.NoReferenceMessageIds | simutrace/storageserver/ServerStream.cpp:1171-1173 | the message of a session without references names the session and then the sequence number, and no other number |
| ServerStreams.ServerStream.CloseLastAppend | simutrace/storageserver/ServerStream.cpp:733-737 | closing the last appended segment adds its entry count to the append index and clears the last appended sequence number; with no last appended segment nothing changes |
| ServerStreams.ServerStream.Append | simutrace/storageserver/ServerStream.cpp:910-967 | the previous append is closed first, so the append index grows by its entry count; append then throws when the number would be the invalid one; without a buffer segment it returns the invalid sequence number; otherwise it registers a new writable segment held once by the session and makes it the last and last appended segment |
| ServerStreams.ReleaseKeepsSum | simutrace/storageserver/ServerStream.cpp:1178-1203 | dropping one of a session's references keeps the reference count equal to the sum of the sessions' counts |
| ServerStreams.RefSumSingle | simutrace/storageserver/ServerStream.cpp:49-66 | a new writable segment's single reference is the sum of its sessions' counts |
| ServerStreams.CloseAssertAsWrittenMisses | simutrace/storageserver/ServerStream.cpp:1178-1184 | the debug assert as written only tests that the count is non-zero: a location counting two references whose only session holds one passes it, and fails the equality the assert is meant to check |
| ServerStreams.CloseAssertHolds | simutrace/storageserver/ServerStream.cpp:1178-1184 | in a valid stream every allocated segment's count is the sum of its sessions' counts, the check close's assert means to make |
| ServerStreamBuffers.BufferName | simutrace/storageserver/ServerStreamBuffer.cpp:87-90 | _getBufferIdString: any buffer but the storage server's own is named by its id in decimal |
| ServerStreamBuffers.CookieMessageIds | simutrace/storageserver/ServerStreamBuffer.cpp:628-632 | the invalid-cookie message names the segment and then the buffer's id, and no other number; the storage server's own buffer is named by text, so its message holds the segment only |
| ServerStreamBuffers.EntryCountMessageIds | simutrace/storageserver/ServerStreamBuffer.cpp:683-687 | the entry-count message names the stream, the sequence number and the segment, in this order, and no other number |
| ServerStreamBuffers.CycleMessageIds | simutrace/storageserver/ServerStreamBuffer.cpp:718-723 | the cycle message names the stream, the segment and the sequence number, in this order, and no other number |
| ServerStreamBuffers.Without | simutrace/storageserver/ServerStreamBuffer.cpp:375-400 | unlinking a segment leaves only segments that were on the list |
| ServerStreamBuffers.WithoutDistinct | simutrace/storageserver/ServerStreamBuffer.cpp:375-400 | unlinking from a list without duplicates keeps it without duplicates and removes exactly that segment |
| ServerStreamBuffers.WithoutAt | simutrace/storageserver/ServerStreamBuffer.cpp:375-400 | unlinking the element at a position leaves the elements before and after it, in order |
| ServerStreamBuffers.PopFree | simutrace/storageserver/ServerStreamBuffer.cpp:232-256 | _dequeueFromFreeList returns a segment of the buffer and keeps the table sizes; PopFreeOk states the rest |
| ServerStreamBuffers.PushFree | simutrace/storageserver/ServerStreamBuffer.cpp:258-274 | _enqueueToFreeList keeps the table sizes and the shared control elements |
| ServerStreamBuffers.SetSlot | simutrace/storageserver/ServerStreamBuffer.cpp:612-642 | updating a segment that is in use and on no list, keeping it in use and its flags consistent, keeps the tables consistent |
| ServerStreamBuffers.PushFreeOk | simutrace/storageserver/ServerStreamBuffer.cpp:232-274 | the free list is last in, first out: after a segment is put back the next dequeue returns it and restores the free list, and the tables stay consistent |
| ServerStreamBuffers.PopFreeOk | simutrace/storageserver/ServerStreamBuffer.cpp:232-256 | the dequeue returns nothing exactly when the free list is empty; otherwise it returns the head, now in use and on no list, and the rest of the free list and the standby list are unchanged |
| ServerStreamBuffers.EnqueueStandby | simutrace/storageserver/ServerStreamBuffer.cpp:402-434 | _enqueueToStandbyList keeps the table sizes and the shared control elements |
| ServerStreamBuffers.DequeueStandby | simutrace/storageserver/ServerStreamBuffer.cpp:375-400 | _dequeueFromStandbyList keeps the table sizes and the shared control elements |
| ServerStreamBuffers.RemoveStandby | simutrace/storageserver/ServerStreamBuffer.cpp:436-503 | _removeStandbySegment returns a segment of the buffer and keeps the table sizes; RemoveStandbyOk states the rest |
| ServerStreamBuffers.Evict | simutrace/storageserver/ServerStreamBuffer.cpp:453-489 | _evictFromStandbyList returns a segment of the buffer and keeps the table sizes; EvictOk states the rest |
| ServerStreamBuffers.AddStandby | simutrace/storageserver/ServerStreamBuffer.cpp:505-525 | _addStandbySegment keeps the table sizes and the shared control elements |
| ServerStreamBuffers.RemoveStandbyOk | simutrace/storageserver/ServerStreamBuffer.cpp:436-503 | the removal finds a segment exactly when the link is indexed; that segment leaves the index and the standby list and is no longer submitted, and the tables stay consistent |
| ServerStreamBuffers.RemovedIndexOk | simutrace/storageserver/ServerStreamBuffer.cpp:491-503 | after the removal the index still holds exactly the standby segments under their own links |
| ServerStreamBuffers.EvictOk | simutrace/storageserver/ServerStreamBuffer.cpp:453-489 | eviction fails exactly when the standby list is empty; otherwise it takes the least recently used segment, which leaves the list and the index and is in use, and the free list is unchanged |
| ServerStreamBuffers.EnqueuedFlags | simutrace/storageserver/ServerStreamBuffer.cpp:402-434 | enqueuing keeps a segment's flags but for the prefetch flag, which only a segment joining the tail keeps |
| ServerStreamBuffers.EnqueuedDistinct | simutrace/storageserver/ServerStreamBuffer.cpp:402-434 | enqueuing keeps the standby list without duplicates and adds exactly the segment |
| ServerStreamBuffers.IndexedEnqueueOk | simutrace/storageserver/ServerStreamBuffer.cpp:515-524 | a segment whose link is not indexed is indexed under it and joins the standby list, and the tables stay consistent |
| ServerStreamBuffers.AddedIndexOk | simutrace/storageserver/ServerStreamBuffer.cpp:515-524 | after indexing and enqueuing, the index holds exactly the standby segments under their own links |
| ServerStreamBuffers.EnqueuedSlotsOk | simutrace/storageserver/ServerStreamBuffer.cpp:515-524 | enqueuing a ready segment that is on neither list keeps every slot consistent: flags, owner and list membership agree |
| ServerStreamBuffers.AddStandbyOk | simutrace/storageserver/ServerStreamBuffer.cpp:505-525 | a segment whose link is already indexed goes to the free list and the standby list stays; any other is indexed under its link and joins the standby list; the tables stay consistent |
| ServerStreamBuffers.EvictionOrder | simutrace/storageserver/ServerStreamBuffer.cpp:402-489 | a low-priority segment that is not a prefetch joins the tail and is the next evicted; any other joins at the head and leaves the next eviction unchanged |
| ServerStreamBuffers.Released | simutrace/storageserver/ServerStreamBuffer.cpp:527-576 | _freeSegment keeps the table sizes; ReleasedOk states the rest |
| ServerStreamBuffers.ReleasedFlags | simutrace/storageserver/ServerStreamBuffer.cpp:537-557 | adding the prefetch and read-only flags to a cacheable segment in use keeps it in use and cacheable, and makes it read-only |
| ServerStreamBuffers.ReleasedOk | simutrace/storageserver/ServerStreamBuffer.cpp:527-576 | _freeSegment keeps the tables consistent and puts the segment on the free or the standby list, on the standby list only when it is cacheable and the cache is enabled |
| ServerStreamBuffers.ReleasedCachedOk | simutrace/storageserver/ServerStreamBuffer.cpp:537-572 | a cacheable segment with the cache enabled joins the standby list, or the free list when its link is already indexed |
| ServerStreamBuffers.Prepared | simutrace/storageserver/ServerStreamBuffer.cpp:276-313 | _prepareSegment keeps the table sizes |
| ServerStreamBuffers.Allocated | simutrace/storageserver/ServerStreamBuffer.cpp:333-373 | _tryAllocateFreeSegment returns a segment of the buffer and keeps the table sizes; AllocatedOk states the rest |
| ServerStreamBuffers.SetShared | simutrace/storageserver/ServerStreamBuffer.cpp:276-313 | replacing a shared control element keeps the tables consistent |
| ServerStreamBuffers.PreparedOk | simutrace/storageserver/ServerStreamBuffer.cpp:276-313 | preparing a segment in use and on no list keeps it so and keeps the tables and both lists |
| ServerStreamBuffers.AllocatedOk | simutrace/storageserver/ServerStreamBuffer.cpp:333-373 | allocation fails exactly when the free and the standby lists are both empty; otherwise the segment is in use and on no list and the tables stay consistent |
| ServerStreamBuffers.RequestedOk | simutrace/storageserver/ServerStreamBuffer.cpp:784-937 | _requestSegment keeps the tables consistent and hands out a segment in use and on no list, none exactly when both lists are empty, and a stream's segment still indexed on the standby list is handed back rather than a new one |
| ServerStreamBuffers.Requested | simutrace/storageserver/ServerStreamBuffer.cpp:784-937 | a request keeps the number of segments and hands out one of them; RequestedOk states the rest |
| ServerStreamBuffers.Setup | simutrace/storageserver/ServerStreamBuffer.cpp:832-930 | setting up a segment keeps the number of segments |
| ServerStreamBuffers.RequestedReadOk | simutrace/storageserver/ServerStreamBuffer.cpp:855-916 | the encoder's read decides only a request that allocated a segment for a storage location: it fails exactly when that read throws, passing the read's exception on with the segment purged to the head of the free list, and it is incomplete exactly when that read is pending; otherwise the outcome is Requested, and the tables stay consistent |
| ServerStreamBuffers.SetupOk | simutrace/storageserver/ServerStreamBuffer.cpp:860-930 | setting up a freshly allocated segment keeps the tables consistent and the segment in use and on no list |
| ServerStreamBuffers.ListedRefused | simutrace/storageserver/ServerStreamBuffer.cpp:963-1019 | freeSegment and purgeSegment refuse a segment on a list with InvalidOperationException, and a purge succeeds exactly for a segment in use and unlinked |
| ServerStreamBuffers.FreedOk | simutrace/storageserver/ServerStreamBuffer.cpp:963-1019 | a successful freeSegment or purgeSegment keeps the tables consistent; a purged segment is on the free list, a freed one on the free or the standby list |
| ServerStreamBuffers.CheckedCounts | simutrace/storageserver/ServerStreamBuffer.cpp:672-687 | the entry-count check fails exactly when the valid entries (entry size times raw entry count) overflow the segment or a variable-size stream claims more entries than raw entries, and its error names the stream, the sequence number and the segment |
| ServerStreamBuffers.SubmitRefusesCookie | simutrace/storageserver/ServerStreamBuffer.cpp:628-632 | a segment whose control cookie fails the test is refused with the cookie error naming that segment |
| ServerStreamBuffers.CheckedCycles | simutrace/storageserver/ServerStreamBuffer.cpp:697-723 | for a temporally ordered stream whose counts pass, the check fails with the cycle error, naming the stream, the segment and the sequence number, exactly when the first entry's 48-bit cycle count is above the last one's, and an accepted element has an ordered, valid cycle range and the end time set |
| ServerStreamBuffers.EncodedOverwrites | simutrace/storageserver/ServerStreamBuffer.cpp:667-779 | the encoding step overwrites the segment, so an earlier write to it does not matter |
| ServerStreamBuffers.EncodedOk | simutrace/storageserver/ServerStreamBuffer.cpp:667-779 | the encoding step keeps the tables consistent; an error leaves the segment in use, on no list and not submitted |
| ServerStreamBuffers.SubmittedOk | simutrace/storageserver/ServerStreamBuffer.cpp:589-782 | submitting keeps the tables consistent, and an error on a segment that passed the guards leaves it in use, on no list and not submitted |
| ServerStreamBuffers.SubmitDropsEmpty | simutrace/storageserver/ServerStreamBuffer.cpp:645-656 | a segment without entries is dropped: the submission completes and the segment returns to the free list |
| ServerStreamBuffers.SubmitCycles | simutrace/storageserver/ServerStreamBuffer.cpp:697-723 | on a temporally ordered writable segment the submission fails with the cycle error naming the stream, the segment and the sequence number exactly when the cycle counts are out of order, and a pending submission shows an ordered, valid cycle range |
| ServerStreamBuffers.SubmittedIsolated | simutrace/storageserver/ServerStreamBuffer.cpp:1114-1123 | once a submission is being encoded, getControlElement returns the checked private copy, whatever the client writes into the shared element |
| ServerStreamBuffers.KeptMembers | simutrace/storageserver/ServerStreamBuffer.cpp:1059-1112 | a flush keeps exactly the listed segments that are not of the store |
| ServerStreamBuffers.KeptNone | simutrace/storageserver/ServerStreamBuffer.cpp:1059-1112 | a flush for all stores keeps nothing |
| ServerStreamBuffers.FlushOneOk | simutrace/storageserver/ServerStreamBuffer.cpp:1071-1105 | one flush step keeps the tables consistent and the standby list as the kept segments followed by the unvisited ones |
| ServerStreamBuffers.FlushMatchedOk | simutrace/storageserver/ServerStreamBuffer.cpp:1079-1100 | a standby segment of the store leaves the index and the list and is purged to the free list |
| ServerStreamBuffers.FlushStep | simutrace/storageserver/ServerStreamBuffer.cpp:1071-1105 | visiting one more standby segment extends the loop invariant and leaves the unvisited segments untouched |
| ServerStreamBuffers.WalkStep | simutrace/storageserver/ServerStreamBuffer.cpp:1071-1105 | visiting the next segment of the original standby list keeps the tables consistent, keeps the segment on the list exactly when it is not of the store, ahead of the unvisited segments, and leaves those untouched |
| ServerStreamBuffers.FlushedOk | simutrace/storageserver/ServerStreamBuffer.cpp:1059-1112 | the flush keeps its loop invariant over every prefix of the standby list |
| ServerStreamBuffers.FlushVisit | simutrace/storageserver/ServerStreamBuffer.cpp:1071-1105 | one turn of the loop: the segment at the walk's position is the next unvisited segment of the original list, still as it was, and visiting it is one more step of Flushed and Kept |
| ServerStreamBuffers.FlushNext | simutrace/storageserver/ServerStreamBuffer.cpp:1071-1078 | after k turns the segment at the walk's position is the original list's k-th, unchanged and owned |
| ServerStreamBuffers.FlushLeft | simutrace/storageserver/ServerStreamBuffer.cpp:1063-1107 | after k turns the list holds the kept segments and the unvisited ones, so the walk ends exactly when every original segment was visited |
| ServerStreamBuffers.FlushAll | simutrace/storageserver/ServerStreamBuffer.cpp:1059-1112 | a flush for one store keeps exactly the other stores' segments on the standby list, and a flush for all stores empties the list and the index |
| ServerStreamBuffers.InitialOk | simutrace/storageserver/ServerStreamBuffer.cpp:156-190 | the initial tables are consistent, every segment is on the free list, and a dequeue succeeds exactly when there is a segment |
| ServerStreamBuffers.ServerStreamBuffer.constructor | simutrace/storageserver/ServerStreamBuffer.cpp:115-190 | the new buffer's tables are the initial tables: every segment free, on the free list in order |
| ServerStreamBuffers.ServerStreamBuffer.DequeueFromFreeList | simutrace/storageserver/ServerStreamBuffer.cpp:232-256 | the method does what PopFree says and changes nothing when the free list is empty |
| ServerStreamBuffers.ServerStreamBuffer.EnqueueToFreeList | simutrace/storageserver/ServerStreamBuffer.cpp:258-274 | the new tables are PushFree of the old |
| ServerStreamBuffers.ServerStreamBuffer.EnqueueToStandbyList | simutrace/storageserver/ServerStreamBuffer.cpp:402-434 | the new tables are EnqueueStandby of the old |
| ServerStreamBuffers.ServerStreamBuffer.DequeueFromStandbyList | simutrace/storageserver/ServerStreamBuffer.cpp:375-400 | the new tables are DequeueStandby of the old |
| ServerStreamBuffers.ServerStreamBuffer.RemoveStandbySegment | simutrace/storageserver/ServerStreamBuffer.cpp:491-503 | the method does what RemoveStandby says and changes nothing when the link is not indexed |
| ServerStreamBuffers.ServerStreamBuffer.EvictFromStandbyList | simutrace/storageserver/ServerStreamBuffer.cpp:453-489 | the method does what Evict says and changes nothing when the standby list is empty |
| ServerStreamBuffers.ServerStreamBuffer.AddStandbySegment | simutrace/storageserver/ServerStreamBuffer.cpp:505-525 | the new tables are AddStandby of the old |
| ServerStreamBuffers.ServerStreamBuffer.ReleaseSegment | simutrace/storageserver/ServerStreamBuffer.cpp:527-576 | the new tables are Released of the old |
| ServerStreamBuffers.ServerStreamBuffer.PrepareSegment | simutrace/storageserver/ServerStreamBuffer.cpp:276-313 | the new tables are Prepared of the old |
| ServerStreamBuffers.ServerStreamBuffer.TryAllocateFreeSegment | simutrace/storageserver/ServerStreamBuffer.cpp:333-373 | the method does what Allocated says and changes nothing when both lists are empty |
| ServerStreamBuffers.ServerStreamBuffer.RequestSegmentInternal | simutrace/storageserver/ServerStreamBuffer.cpp:784-937 | the result, whether the request completed, and the new tables are RequestedRead of the old for the encoder's read outcome |
| ServerStreamBuffers.ServerStreamBuffer.SetupSegment | simutrace/storageserver/ServerStreamBuffer.cpp:860-930 | the new tables are Setup of the old |
| ServerStreamBuffers.ServerStreamBuffer.LoadSegment | simutrace/storageserver/ServerStreamBuffer.cpp:832-877 | with a storage location the new tables are Setup of the old: read-only, cacheable and perhaps low priority as the cache and the access flags say, and the control element loaded from the location |
| ServerStreamBuffers.ServerStreamBuffer.MarkSegment | simutrace/storageserver/ServerStreamBuffer.cpp:918-930 | without a storage location the new tables are Setup of the old: a scratch segment without an owner, a cacheable low-priority segment with one when the cache is enabled, unchanged otherwise |
| ServerStreamBuffers.ServerStreamBuffer.RequestSegment | simutrace/storageserver/ServerStreamBuffer.cpp:939-951 | the invalid sequence number is an argument error that changes nothing; otherwise the request is Requested for the stream, which completes, and the buffer stays consistent |
| ServerStreamBuffers.ServerStreamBuffer.RequestScratchSegment | simutrace/storageserver/ServerStreamBuffer.cpp:953-961 | a scratch request is Requested without owner, which completes, and the buffer stays consistent |
| ServerStreamBuffers.ServerStreamBuffer.OpenSegment | simutrace/storageserver/ServerStreamBuffer.cpp:1042-1057 | opening is RequestedRead for the stream with the storage location and the encoder's read outcome: a failed read purges the fresh segment and passes the exception on, a pending one is incomplete; the buffer stays consistent |
| ServerStreamBuffers.ServerStreamBuffer.IsLinked | simutrace/storageserver/ServerStreamBuffer.cpp:974-1004 | seg.next != nullptr: the segment is on the standby list, or on the free list but not its last element |
| ServerStreamBuffers.ServerStreamBuffer.FreeSegment | simutrace/storageserver/ServerStreamBuffer.cpp:963-992 | the error and the new tables are those of Freed, and the buffer stays consistent |
| ServerStreamBuffers.ServerStreamBuffer.PurgeSegment | simutrace/storageserver/ServerStreamBuffer.cpp:994-1019 | the error and the new tables are those of Purged, and the buffer stays consistent |
| ServerStreamBuffers.ServerStreamBuffer.GetControlElement | simutrace/storageserver/ServerStreamBuffer.cpp:1114-1123 | the result is ControlOf the tables |
| ServerStreamBuffers.ServerStreamBuffer.SubmitSegment | simutrace/storageserver/ServerStreamBuffer.cpp:589-782 | the result and the new tables are Submitted of the old, whose errors carry the ids their messages print, and the buffer stays consistent |
| ServerStreamBuffers.ServerStreamBuffer.EncodeSegment | simutrace/storageserver/ServerStreamBuffer.cpp:667-779 | the result and the new tables are Encoded of the old, whose errors carry the ids their messages print |
| ServerStreamBuffers.ServerStreamBuffer.FlushStandbyList | simutrace/storageserver/ServerStreamBuffer.cpp:1059-1112 | the loop leaves Flushed of the old tables over the whole old standby list, the buffer consistent, and for all stores an empty standby list and index |
| ServerStreamBuffers.ServerStreamBuffer.FlushSegment | simutrace/storageserver/ServerStreamBuffer.cpp:1071-1105 | the new tables are FlushOne of the old |
| PatternLayouts.CloseAt | simutrace/libsimubase/PatternLogLayout.cpp:233-242 | the postfix ends at the first '}' from the given index, or there is none |
| PatternLayouts.ElementAt | simutrace/libsimubase/PatternLogLayout.cpp:213-297 | an element read without exception always advances the index and stays inside the pattern |
| PatternLayouts.LastSpace | simutrace/libsimubase/PatternLogLayout.cpp:209-286 | the newline space component created last is the last NewLineSpace in the chain, or there is none |
| PatternLayouts.NormalAppend | simutrace/libsimubase/PatternLogLayout.cpp:305-317 | adding a component that fits keeps a chain normal and updates the last newline space |
| PatternLayouts.PushOk | simutrace/libsimubase/PatternLogLayout.cpp:305-317 | flushing the pending literal and adding a component keeps the chain normal |
| PatternLayouts.PushBuilderOk | simutrace/libsimubase/PatternLogLayout.cpp:305-317 | pushing a component that fits, and recording a newline space component as the last one, keeps the parser state well formed and extends the components built so far |
| PatternLayouts.ApplyOk | simutrace/libsimubase/PatternLogLayout.cpp:250-317 | every element the parser accepts keeps its state well formed and keeps the components built so far |
| PatternLayouts.CodeComponent | simutrace/libsimubase/PatternLogLayout.cpp:250-295 | the codes c, d, m, p and s each add exactly their component after the pending literal, a message takes the current newline space, and every other accepted code adds none |
| PatternLayouts.ParseStep | simutrace/libsimubase/PatternLogLayout.cpp:212-318 | a turn of the loop that does not throw reads one element and goes on from after it |
| PatternLayouts.ParseFromNormal | simutrace/libsimubase/PatternLogLayout.cpp:212-324 | from a well-formed state the loop builds a normal chain that extends the components built so far |
| PatternLayouts.ParsedNormal | simutrace/libsimubase/PatternLogLayout.cpp:196-331 | every chain _updatePattern builds is normal: no empty or adjacent literals, each message shares the newline space created last before it, and newline components come only before the first %s |
| PatternLayouts.TrailingPercent | simutrace/libsimubase/PatternLogLayout.cpp:221-222 | a '%' as the last character, after plain characters only, throws "Invalid pattern ending." |
| PatternLayouts.TrailingPercentPattern | simutrace/libsimubase/PatternLogLayout.cpp:221-222 | a pattern without '%' followed by a single '%' throws "Invalid pattern ending." |
| PatternLayouts.PostfixRead | simutrace/libsimubase/PatternLogLayout.cpp:225-263 | a '{' after a code starts a postfix ending at the next '}'; a timestamp takes it as its format, and a missing '}' throws "Missing end of postfix." for any code |
| PatternLayouts.Escapes | simutrace/libsimubase/PatternLogLayout.cpp:252-275 | '%%' adds '%' and '%n' a newline character to the pending literal without making a component |
| PatternLayouts.CodesAccepted | simutrace/libsimubase/PatternLogLayout.cpp:250-295 | only the codes %, c, d, m, n, p and s are accepted, and any other throws "Invalid pattern component '<code>'." |
| PatternLayouts.NewLineCharacter | simutrace/libsimubase/PatternLogLayout.cpp:297-303 | a newline character makes a newline component before the first %s and goes into the literal after it |
| PatternLayouts.PlainText | simutrace/libsimubase/PatternLogLayout.cpp:297-324 | plain text without newline becomes one literal component, and the empty pattern none |
| PatternLayouts.PatternLogLayout.Init | simutrace/libsimubase/PatternLogLayout.cpp:178-182 | the layout holds its pattern and no components before parsing |
| PatternLayouts.PatternLogLayout.New | simutrace/libsimubase/PatternLogLayout.cpp:178-184 | the constructor yields a layout whose chain is the parse of its pattern, and passes on the exception of a pattern that does not parse |
| PatternLayouts.PatternLogLayout.UpdatePattern | simutrace/libsimubase/PatternLogLayout.cpp:196-331 | the loop leaves the chain Parse builds, or throws the exception Parse gives and leaves the chain empty |
| PatternLayouts.ReadElement | simutrace/libsimubase/PatternLogLayout.cpp:213-247 | reading one element, with the postfix loop, gives what ElementAt says |
| Simtrace3Frames.ZeroHeader | simutrace/storageserver/simtrace/Simtrace3Frame.cpp:38 | the zeroed header has no attributes, total size 0 and a two-entry attribute table |
| Simtrace3Frames.InitialHeader | simutrace/storageserver/simtrace/Simtrace3Frame.cpp:31-84 | the constructor throws an argument error exactly for a control element without a stream; otherwise the header has the frame marker, the stream's id and type or the invalid id and zero GUID, the control element's ranges or invalid ones, no attributes and the header's own size |
| Simtrace3Frames.AddToHeader | simutrace/storageserver/simtrace/Simtrace3Frame.cpp:118-147 | a full attribute table throws InvalidOperationException; otherwise the next entry records the type and the total size so far (48 bits), the count grows by one, the total size grows by an attribute header and the size (64 bits), and nothing else changes |
| Simtrace3Frames.AddAll | simutrace/storageserver/simtrace/Simtrace3Frame.cpp:118-147 | the attributes added one after another leave a header a frame can hold |
| Simtrace3Frames.AddAllLayout | simutrace/storageserver/simtrace/Simtrace3Frame.cpp:118-147 | from a header without attributes, at most two attributes are accepted; each entry records where its attribute header starts, after the frame header and the attributes before it, and the total size covers them all |
| Simtrace3Frames.AttributesBytesPrefix | simutrace/storageserver/simtrace/Simtrace3Frame.cpp:146 | the attributes of a prefix take no more bytes than all of them |
| Simtrace3Frames.AddAllErr | simutrace/storageserver/simtrace/Simtrace3Frame.cpp:124-127 | once an addition fails, every longer list of additions fails |
| Simtrace3Frames.AddAllThird | simutrace/storageserver/simtrace/Simtrace3Frame.cpp:124-127 | the third addition to a header without attributes throws |
| Simtrace3Frames.Simtrace3Frame.FromHeader | simutrace/storageserver/simtrace/Simtrace3Frame.cpp:86-90 | a frame around a header read back holds that header and no attributes |
| Simtrace3Frames.Simtrace3Frame.AddAttribute | simutrace/storageserver/simtrace/Simtrace3Frame.cpp:118-147 | the header becomes AddToHeader of the old and the description is appended; a full table throws and changes nothing |
| Simtrace3Frames.Simtrace3Frame.AddUncompressedAttribute | simutrace/storageserver/simtrace/Simtrace3Frame.cpp:111-116 | an uncompressed attribute is added with its uncompressed size as its size |
| Simtrace3Frames.Simtrace3Frame.AddDescription | simutrace/storageserver/simtrace/Simtrace3Frame.cpp:149-152 | a description read back is appended and the header stays |
| Simtrace3Frames.Simtrace3Frame.FindAttribute | simutrace/storageserver/simtrace/Simtrace3Frame.cpp:154-167 | the loop answers the first attribute of the type, and none exactly when no attribute has it |
| Simtrace3Frames.NewFrame | simutrace/storageserver/simtrace/Simtrace3Frame.cpp:31-84 | the constructor throws what InitialHeader refuses, and otherwise yields a frame with that header and no attributes |
| WorkQueues.Highest | simutrace/storageserver/WorkQueue.cpp:59-68 | the highest level at or below p that holds an item, or -1 when all are empty |
| WorkQueues.Enqueued | simutrace/storageserver/WorkQueue.cpp:44-53 | the item joins the back of its level and every other level is unchanged |
| WorkQueues.SizeFromUpdate | simutrace/storageserver/WorkQueue.cpp:127-137 | replacing one level changes the size by the difference of the two |
| WorkQueues.SizeFromZero | simutrace/storageserver/WorkQueue.cpp:114-137 | the size is 0 exactly when no level holds an item |
| WorkQueues.EnqueueGrows | simutrace/storageserver/WorkQueue.cpp:44-53 | getLength grows by one with each enqueueWork |
| WorkQueues.DequeueShrinks | simutrace/storageserver/WorkQueue.cpp:55-76 | dequeueWork returns null exactly when the queue is empty, and otherwise getLength shrinks by one |
| WorkQueues.EnqueueThenDequeue | simutrace/storageserver/WorkQueue.cpp:44-76 | after enqueueWork the next dequeueWork returns the new item when its level is above every non-empty one, and otherwise the item it would have returned before |
| WorkQueues.WorkQueue.constructor | simutrace/storageserver/WorkQueue.cpp:30-35 | a new queue has three empty levels and is not blocked |
| WorkQueues.WorkQueue.EnqueueWork | simutrace/storageserver/WorkQueue.cpp:44-53 | a blocked queue throws InvalidOperationException and a priority above Max ArgumentOutOfBoundsException, both changing nothing; otherwise the levels are Enqueued |
| WorkQueues.WorkQueue.DequeueWork | simutrace/storageserver/WorkQueue.cpp:55-76 | the loop from Max down pops the front of the highest non-empty level, or returns null and changes nothing |
| WorkQueues.WorkQueue.Clear | simutrace/storageserver/WorkQueue.cpp:78-85 | every level becomes empty |
| WorkQueues.WorkQueue.Block | simutrace/storageserver/WorkQueue.cpp:87-95 | the queue is blocked and its items stay |
| WorkQueues.WorkQueue.IsEmpty | simutrace/storageserver/WorkQueue.cpp:114-125 | the loop answers true exactly when no level holds an item, that is, when the size is 0 |
| WorkQueues.WorkQueue.GetLength | simutrace/storageserver/WorkQueue.cpp:127-137 | the loop answers the number of items modulo 2^32 |

## Left out

- RamBitmapping.BlendChannel: `_blend` computes in doubles and truncates to a byte. The model computes the weighted sum exactly as a fraction num/den and rounds it down, so rounding differences of floating point are not modelled.
- RamBitmapping: the Windows Forms drawing, the picture box and the timer that redraws are GUI code and are not modelled. The bitmap is an array of pixels.
- Replaying: the replay thread itself, its locking and the form that hosts it are not modelled. The thread is a three-state field (not started, alive, finished), and each pass of `_doReplay` is one call of Step.
- Replaying.Replay.Step: it dispatches through the corrected Dispatch. The code as written is Replaying.Replay.StepAsWritten (see Findings).
- Replaying.Replay.StepAsWritten: the model records only that the replay thread has finished. `_replayThreadMain` rethrows every exception that is not a SimutraceException or ReplayException (Replay.cs:646-647), and an exception unhandled on a worker thread terminates the .NET process, which is outside the model.
- ProgramArgs.ParseUInt32: trailing NUL characters, which .NET also trims, are not accepted. Signs and white space follow the invariant culture.
- Clock: formatTime's localtime and strftime depend on the time zone and the C library, and are not modelled. Only the "%~" millisecond expansion is (Clock.ExpandMilliseconds).
- FcmPredictors.FcmPredictor.constructor: usage counts are unbounded naturals rather than uint64_t, so their wrap-around after 2^64 increments is not modelled. The constructor of Predictor clears only the first count, because its memset is given the size of a pointer. The other counts start as a `leftover` parameter.
- ValuePrediction.ValuePredictor.PredictValue: it updates the DFCM history before the last-value and FCM tables are consulted, while the source updates it afterwards. Neither table reads the DFCM history, so the results are the same.
- VariableData.ReadVariableData: it requires the window to decode (`DecodeFrom(..).Some?`). The source only asserts well-formed headers in debug builds, and what it reads from a malformed window is not modelled.
- VariableData.WriteVariableData: a destination smaller than one block gives a block count of 0. The source leaves its out-parameter unwritten in that case.
- ServerStreams.ServerStream.Close: when the last reference is dropped, close calls `_close` (ServerStream.cpp:1186-1190), which submits or purges the segment in the buffer. The model reports LastReference and leaves the segment unchanged.
- ServerStreams.ServerStream.Append: of the `_close` of the session's previously appended segment (ServerStream.cpp:917-933), only its effect on the append state is modelled (CloseLastAppend). The submission or purge of that segment and the release of its reference are not. The entry count added to `_lastAppendIndex` is the parameter `closedEntries`, because it is read from the segment's control element in the stream buffer. Writing `_lastAppendIndex` into the new segment's control element (line 955) is not modelled either.
- ServerStreams: the locks, the encoder and the queries served by the encoder are not modelled.
- ServerStreamBuffers.ServerStreamBuffer.TryAllocateFreeSegment: the contention handling is not modelled. When neither list yields a segment, the source waits in `_handleContention` for other threads and tries again. The model makes one attempt and returns no segment.
- ServerStreamBuffers: the encoder's read of a segment is reduced to an outcome value (ReadOutcome: done, pending or failed with an error), and its write to another (EncoderOutcome). Which outcome the encoder gives is a parameter. The source asserts that a synchronous read completes; the model does not tie the outcome to the access type. The control element's cookie check is reduced to a boolean (`Submission.cookieOk`), because the cookie hash (ServerStreamBuffer.cpp:559) is not modelled.
- ServerStreamBuffers: the error texts print ids with "%d", so an id of 2^31 or more would show as negative. The model prints every id as an unsigned decimal. The buffer id is a parameter of CookieMessage, because the source reads it from the buffer object.
- ServerStreamBuffers: the intrusive next/prev links of the free list and the standby list are modelled as sequences of segment ids. Pointer aliasing between list nodes is therefore not captured, though the order of the lists and their updates are.
- ServerStreamBuffers: segment data, the atomic list heads and the locks are not modelled.
- StreamBuffers: the memory mapping and the shared-memory handle are not modelled. The page size is a parameter.
- PatternLayouts: the formatting of a log message by the parsed components (`format`) is not modelled. A shared pointer to a component is modelled by the component's value.
- PatternLayouts.ReadElement: this is a helper for the brace-delimited postfix scan inside `_updatePattern`, and is not a member of the source.
- SizeString.SizeToString: it requires maxUnit to be one of the units from bytes to TiB, the range the source's unit table covers.
- RamMapping.RamMap.ApplyMemoryAccess: bytes of an access that fall past the end of the RAM image are dropped. The index is an unbounded natural rather than a ulong.
- Multiplexing: the locks and the stream handles of the multiplexer are not modelled. Inputs are sequences of entries.
- WorkQueues: the worker threads and the blocking wait are not modelled. Block only sets the flag that dequeueWork observes.

## Findings

| source | as written | input that shows it | evidently intended | confidence | as-written member | corrected member |
|---|---|---|---|---|---|---|
| simutrace/include/SimuStorTypes.h:352-356 | findVariableEntry moves from block to block by the header plus the data size recorded in it, not by the padded block size (sizeHint) | two one-byte entries written with sizeHint 4: the scan lands in the padding, reports entry 2 at offset 3 although its block is at 4, and runs past the buffer when looking for entry 3 | step from block to block by sizeHint | not executed | VariableData.FindMisreadsPadding | VariableData.FindWholeEntries |
| samples/csharp.memreplay/RamMap.cs:71 | the bounds check compares the address plus the size code (0..3) with the image size | an 8-byte write (size code 3) at address 8188 of an 8192-byte image passes the check, since 8188 + 3 < 8192, while its last four bytes lie past the image | compare the address plus the size in bytes | not executed | RamMapping.BoundsCheckOverrun | RamMapping.FitsImageStore |
| samples/csharp.memreplay/Replay.cs:595-596 | `_doReplay` indexes the stream collection by the entry's input position | a trace with memory streams and a Cr3 stream but no screen streams: the Cr3 entry's position names the empty screen slot, and the NullReferenceException, which `_replayThreadMain` rethrows (Replay.cs:646-647), is unhandled on the worker thread and terminates the process | dispatch each input position to its own stream | not executed | Replaying.Replay.StepAsWritten | Replaying.Replay.Step |
| simutrace/storageserver/ServerStream.cpp:197-208,233 | for a sequence number past the last one, `_getPreviousSegment` starts its search below the last segment and so skips it; `_addSegment` checks a new segment against that | segments 0 and 1 with single-value ranges [0, 0] and [5, 5]; segment 2 with ranges [3, 4] is checked against segment 0 and accepted | check against the last segment, which refuses it | not executed | ServerStreams.AddSegmentAsWrittenAccepts | ServerStreams.ServerStream.AddSegment |
| simutrace/storageserver/ServerStream.cpp:1178-1184 | the debug assert in close is `assert(totalRef = loc->referenceCount)`, an assignment, so it checks only that the count is non-zero | a location counting two references whose only session holds one passes the assert | assert that the count equals the sum of the sessions' counts | not executed | ServerStreams.CloseAssertAsWrittenMisses | ServerStreams.CloseAssertHolds |
