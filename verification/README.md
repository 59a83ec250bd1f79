# Models of djbdns 1.05 and ezmlm 0.53

This project models the data structures and protocols of djbdns 1.05 (with query merging) and two parts of
ezmlm 0.53, and proves what they are meant to guarantee.

- **The resolver cache** (`CacheLayout`, `Cache`, `CacheProperties`): one byte array with bucket heads, a ring of
  entries in two runs and exclusive-or linked bucket lists. The invariant written at the head of `cache.c` holds in
  every state, and the cache refines the plain log of accepted insertions.
- **The constant database** (`DjbHash`, `CdbTable`, `CdbFormat`, `CdbMake`, `CdbRead`, `CdbProperties`, `CdbWalk`):
  the writer's counting split and open addressing, the reader, and the sequential pass of the zone transfer server.
- **Names on the wire and as text** (`Domain`, `Packet`, `Compression`, `Shortening`, `Response`, `NameText`): comparison
  and suffixes, decompression (section 4.1.4 of RFC 1035), the response builder with its table of suffixes, what a name is
  shortened to, printer and parser.
- **The iterative resolver** (`ResolverState`, `Resolver`, with `Scan` and `Replies` for reading packets): the state
  machine of a query, one method for every label. `QuerySteps` says what every label does to what the query holds, and what
  whole runs come to. `CacheView` says what a query makes of the cache and `Roots` of the list of root servers. `Records`
  brings the records of a packet together set by set with a heapsort (`Order`, `Heapsort`, `IncreasingSeq`), `CacheSets` and
  `SetData` say which sets are kept in the cache and that they are read back as they came, and `AnswerProperties` that
  nothing of a packet is lost on the way. `PickDns` is the second program that uses the same sort.
- **Query merging and transmission** (`Qmerge`, `Transmit`): the shared slots and one transmission over UDP and TCP.
- **The tracer's tables** (`Trace`), **random addresses** (`RandomIp`), **dates** (`Datetime`) and the
  **subscriber list** (`Subscribe`).

C's `unsigned int` and `uint32` are numbers below 2^32 with wrap-around written out; `int` in `Datetime` is a subset
type, so that every assignment is shown not to overflow. Bytes are numbers below 256. Exclusive or is defined digit by
digit. What the network, the file system, the clock, the allocator and the random number generator do is an arbitrary
input of each step, so every statement holds for all of their outcomes; where a step can fail only for such a reason, the
reason is recorded and the statement says so. Code that changes fields or arrays step by step is a class or a method with
loops; each method is proved against a function of its inputs or of the old state, and the lemmas are about these
functions.

Where the code does not do what one would expect, the code is followed:

- `datetime.c:39` counts the leap day of the first year of every four, so `yday` is one too high from March on in years
  such as 2100. `Datetime.YdayRightWhen` says for which seconds it is right and `Datetime.YdayRightOn` on which dates;
  `Datetime.FirstOfMarch2100` is the first day of 2100 on which it is wrong.
- `random-ip.c:40-43` checks the number of addresses only when a byte is fixed. `RandomIp.DistinctWhen` says exactly
  when no address is printed twice.
- `cache.c:144-150` drops every entry before it finds that a new one cannot fit; `Cache.ResolverCache.Set` states this.
- `axfrdns.c:283-290` gives up on a record that is larger than its buffers or whose key is neither a location nor a
  name. `CdbWalk.WalkYieldsRecords` says for every database exactly when this happens, `CdbWalk.LetterGivesUp` shows one.
- `dns_transmit.c:168-171` does not set the position back when a connection is established at once, so that a query need
  not be written from its first byte. `Transmit.WrittenWhole` says exactly when the server has been sent the query,
  `Transmit.BeginsInside` is a run in which it has not.

## Model

| member | source | states |
|---|---|---|
| CacheProperties.Structure | src/djbdns-1.05/cache.c:17-41 | in every state the cursors are ordered, both runs parse exactly into the entries alive, and every bucket list, walked by exclusive or, enumerates exactly the live entries that hash to it, newest first |
| CacheProperties.OldestEndsItsList | src/djbdns-1.05/cache.c:152-153 | the globally oldest entry is the last of its bucket list, so eviction finds the link to it without searching |
| CacheProperties.LookupIsLatest | src/djbdns-1.05/cache.c:80-125 | a lookup gives the most recent insertion accepted for the key if and only if it is resident, unexpired and among the first 101 of its list, with the remaining time to live cut to a week; never an older value |
| CacheProperties.LatestSuffix | src/djbdns-1.05/cache.c:144-161 | evicting from the old end never changes which resident entry is the latest for a key |
| Cache.ResolverCache.Init | src/djbdns-1.05/cache.c:184-207 | establishes the invariant with an empty log, with the size clamped, or leaves no cache when memory is refused |
| Cache.ResolverCache.Get | src/djbdns-1.05/cache.c:80-125 | the list search computes the lookup on the log of live entries, and nothing for long keys or without a cache |
| Cache.ResolverCache.Search | src/djbdns-1.05/cache.c:94-124 | following the exclusive-or links with the limit of 100 steps is the lookup |
| Cache.ResolverCache.Match | src/djbdns-1.05/cache.c:99-117 | comparing length and bytes in the array decides equality with the key of the entry, and a match answers with its data and time to live |
| Cache.ResolverCache.Hash | src/djbdns-1.05/cache.c:65-78 | shifting and masking give the head of the key's bucket, a multiple of four inside the table |
| Cache.ResolverCache.Set | src/djbdns-1.05/cache.c:127-182 | the new log is a suffix of the old one with the new entry behind it; what is dropped is dropped for want of room only, and everything when the entry cannot fit even in an empty ring |
| Cache.ResolverCache.MakeRoom | src/djbdns-1.05/cache.c:144-161 | the eviction loop ends, drops the oldest entries only, and succeeds exactly when the entry fits behind the heads |
| Cache.ResolverCache.DropOldest | src/djbdns-1.05/cache.c:152-160 | one eviction keeps the invariant and removes exactly the oldest entry |
| Cache.ResolverCache.Flip | src/djbdns-1.05/cache.c:145-150 | making the new run the old one keeps the invariant and every entry |
| Cache.ResolverCache.Insert | src/djbdns-1.05/cache.c:163-181 | inserting at the front of its bucket list keeps the invariant and adds the entry to the log |
| Cache.DropSound | src/djbdns-1.05/cache.c:152-160 | unlinking the oldest entry leaves the array sound for the remaining entries; no read or write is out of range |
| Cache.InsertSound | src/djbdns-1.05/cache.c:163-180 | the array with the new entry written and linked is sound for the entries and the new one |
| Cache.FlipSound | src/djbdns-1.05/cache.c:145-150 | a state whose old run is empty is sound with the runs exchanged |
| Cache.SearchNext | src/djbdns-1.05/cache.c:98-122 | one step of the list search passes exactly one entry of the bucket and no entry for the key |
| CacheLayout.EvictKeeps | src/djbdns-1.05/cache.c:22-41 | removing the tail of a list by one exclusive or keeps all other lists and entries |
| CacheLayout.InsertLinks | src/djbdns-1.05/cache.c:169-179 | relinking the former first entry and the head keeps every list and puts the new entry first |
| CacheLayout.RingPlaced | src/djbdns-1.05/cache.c:22-30 | the ring's entries never overlap each other or the heads |
| DjbHash.Compute | src/djbdns-1.05/cdb_hash.c:5-21 | the loop folds the step over the bytes, with 32-bit wrap-around |
| CdbTable.ProbeFindsAll | src/djbdns-1.05/cdb_make.c:132-139 | after linear probing, a search for a hash that stops at the first free slot meets exactly its entries, in the order of insertion |
| CdbTable.RoomLeft | src/djbdns-1.05/cdb_make.c:134-137 | in a table that is not full the search for a free slot ends |
| CdbTable.AroundPlace | src/djbdns-1.05/cdb_make.c:134-138 | filling a free slot adds the entry to its own hash, last, and to no other |
| CdbMake.CountBuckets | src/djbdns-1.05/cdb_make.c:84-91 | counts the entries of every bucket over all chunks |
| CdbMake.Starts | src/djbdns-1.05/cdb_make.c:110-114 | the running sums are the ends of the buckets in the split |
| CdbMake.Split | src/djbdns-1.05/cdb_make.c:116-120 | the backward split puts every bucket into its range, in the order of insertion |
| CdbMake.PlaceOne | src/djbdns-1.05/cdb_make.c:134-138 | the probing loop is the placement function |
| CdbMake.FillTable | src/djbdns-1.05/cdb_make.c:129-139 | the table in the shared memory is the table of the bucket, whatever was there before |
| CdbMake.Writer.Add | src/djbdns-1.05/cdb_make.c:64-70 | a record that is added is behind the others in the file and in the list of hashes; this fails only for want of memory, because a write fails, or when the records would reach position 2^32 |
| CdbMake.Writer.PosPlus | src/djbdns-1.05/cdb_make.c:21-27 | refuses exactly the positions that would wrap |
| CdbMake.Writer.MemSize | src/djbdns-1.05/cdb_make.c:93-98 | the memory suffices for every table and is no larger than the largest one needs |
| CdbMake.Writer.AllTables | src/djbdns-1.05/cdb_make.c:122-147 | writing the 256 tables and header entries completes a database of the records, 16 bytes longer for each; it fails only because a write fails or when these bytes would reach position 2^32 |
| CdbMake.Writer.Finish | src/djbdns-1.05/cdb_make.c:72-152 | unless memory or a write fails it succeeds if and only if records and tables end below position 2^32, and then the file is a constant database of exactly the records added |
| CdbMake.TooMany | src/djbdns-1.05/cdb_make.c:93-98 | when the memory needed for the tables cannot be counted in 32 bits, the file would be too large as well, so this test refuses nothing that could have been written |
| CdbRead.Reader.Read | src/djbdns-1.05/cdb.c:44-68 | unless the system refuses, which it cannot for a mapped file, a read gives the bytes of the file if and only if they lie in it |
| CdbRead.Reader.Match | src/djbdns-1.05/cdb.c:70-85 | the comparison 32 bytes at a time is the comparison of the key with the file |
| CdbRead.CompareInFile | src/djbdns-1.05/cdb.c:70-85 | comparing in pieces decides equality with the bytes at the position |
| CdbRead.Reader.FindNext | src/djbdns-1.05/cdb.c:87-130 | unless the system refuses a read, each call computes the next answer and the next cursor, also where positions wrap in a file of any content |
| CdbProperties.FindsExactly | src/djbdns-1.05/cdb.c:87-130 | repeated calls give the data of exactly the records written with the key, in order, and then the end |
| CdbProperties.ProbeStep | src/djbdns-1.05/cdb.c:106-127 | one call finds the first remaining answer and leaves the rest |
| CdbProperties.HitsAreWanted | src/djbdns-1.05/cdb.c:113-126 | the entries of a hash whose record matches are exactly the records of the key |
| CdbWalk.Walk | src/djbdns-1.05/axfrdns.c:264-290 | the pass over the file is the recursive walk, and gives up where that does |
| CdbWalk.Visiting | src/djbdns-1.05/axfrdns.c:288-290 | a location is passed over; any other key must be a name from its first byte to its last |
| CdbWalk.WalkYieldsRecords | src/djbdns-1.05/axfrdns.c:264-290 | on every database the pass visits the full list of records in order, each a location or under the name that its key is; it gives up if and only if a record exceeds the buffers or has a key that is neither |
| CdbWalk.NamesAreTaken | src/djbdns-1.05/axfrdns.c:288-290 | a well-formed name as key, the root included, is never a location and is taken as it is |
| CdbWalk.LetterGivesUp | src/djbdns-1.05/axfrdns.c:290 | on a database whose one key is a letter without a length the pass gives up |
| Domain.WireLabels | src/djbdns-1.05/dns_domain.c:7-16 | a well-formed name is the encoding of its labels |
| Domain.LabelsWire | src/djbdns-1.05/dns_domain.c:7-16 | every fitting list of labels is encoded as a well-formed name and read back |
| Domain.Length | src/djbdns-1.05/dns_domain.c:7-16 | the length found by hopping over labels is that of the whole name |
| Domain.CaseDiff | src/djbdns-1.05/case_diffb.c:4-18 | the sign is that of the first difference of the bytes in lower case |
| Domain.Equal | src/djbdns-1.05/dns_domain.c:40-49 | the comparison decides equality up to letter case |
| Domain.SameIsLabelwise | src/djbdns-1.05/dns_domain.c:40-49 | equality of encodings up to case is equality label by label up to case |
| Domain.Suffix | src/djbdns-1.05/dns_domain.c:51-61 | decides whether a name ends another one at a label boundary |
| Domain.SuffixIsLabelwise | src/djbdns-1.05/dns_domain.c:51-61 | a name is a suffix of another exactly when its labels are the last labels of the other, up to case |
| Domain.SuffixPos | src/djbdns-1.05/dns_domain.c:63-74 | gives the offset of that boundary, or 0 |
| Domain.SuffixTransitive | src/djbdns-1.05/dns_domain.c:51-61 | a suffix of a suffix is a suffix |
| Packet.Copy | src/djbdns-1.05/dns_packet.c:8-16 | copies exactly when the bytes are all in the packet |
| Packet.SkipName | src/djbdns-1.05/dns_packet.c:18-33 | the loop is the recursive skip |
| Packet.GetName | src/djbdns-1.05/dns_packet.c:35-77 | the loop with its state variable, step count and name buffer is decompression cut at 999 steps and 255 bytes |
| Packet.GetNameSound | src/djbdns-1.05/dns_packet.c:35-77 | on any packet and offset a result is a well-formed name of at most 255 bytes, and ends inside the packet where skipping ends |
| Packet.DecodeMonotone | src/djbdns-1.05/dns_packet.c:47-60 | a larger limit on steps never changes a result |
| Packet.DecodeLiteral | src/djbdns-1.05/dns_packet.c:35-77 | a name written out in full is decoded exactly as it is |
| Compression.EncodesDecodes | src/djbdns-1.05/dns_packet.c:35-77 | a name encoded with backward pointers is decoded in at most two steps per byte |
| Compression.EncodesBackward | src/djbdns-1.05/response.c:32-36 | every pointer met in decoding a name that was written, at its beginning or behind labels, leads to an earlier name that ends before the pointer |
| Compression.EncodesCut | src/djbdns-1.05/response.c:117-121 | cutting the packet behind a name leaves it readable |
| Compression.EncodesKept | src/djbdns-1.05/response.c:87-91 | bytes written outside names leave all names readable |
| Response.Builder.AddName | src/djbdns-1.05/response.c:23-50 | succeeds if and only if there is room for the shortened name; the packet grows by exactly that and the table by the suffixes passed over; the name can be read at its offset, and so can every earlier name and every suffix in the table |
| Response.Builder.Find | src/djbdns-1.05/response.c:32-33 | gives the first entry of the table that is the name up to case, or the number of entries when none is |
| Shortening.CutIs | src/djbdns-1.05/response.c:31-36 | a name is cut at its first label boundary behind which the rest is in the table up to case, or else at its final zero |
| Shortening.EncodedIsShorter | src/djbdns-1.05/response.c:31-49 | a name written out to its end is written as it is; a name that is cut takes fewer bytes than it has |
| Shortening.AfterIs | src/djbdns-1.05/response.c:37-42 | the table gains exactly the suffixes in front of the cut that have at most 128 bytes and begin below 16384, in order, as long as it has fewer than 100 entries |
| Shortening.AgainIsPointer | src/djbdns-1.05/response.c:31-49 | a short name written early enough is a pointer and nothing else when it comes again in whatever case |
| Response.AnswerPointsBack | src/djbdns-1.05/response.c:31-36 | behind a question about a short name that name is written as the two bytes 192 and 12 |
| Response.Builder.AddBytes | src/djbdns-1.05/response.c:15-21 | appends exactly when there is room |
| Response.Builder.Query | src/djbdns-1.05/response.c:52-62 | always succeeds: the packet is header, question name, type and class and nothing else, the table the suffixes of the name |
| Response.Builder.RStart | src/djbdns-1.05/response.c:73-85 | succeeds if and only if there is room; the packet grows by the shortened owner, type, class, time to live and an empty length |
| Response.Builder.RFinish | src/djbdns-1.05/response.c:87-91 | fills in the data length and counts the record with its carry, without touching a name |
| Response.Builder.Cname | src/djbdns-1.05/response.c:93-99 | succeeds if and only if there is room for both shortened names; owner, type, class, time to live, data length and the count of answers are those of an alias record, both names are readable, and the rest of the packet is as before |
| Response.Builder.Tc | src/djbdns-1.05/response.c:117-121 | the packet is cut behind the question, and exactly the names in front of the cut remain, readable |
| Response.NamesReadable | src/djbdns-1.05/response.c:23-50 | decompression at the offset of any name written gives it back up to case, ending behind its encoding, with neither limit hit |
| Response.PointersBackward | src/djbdns-1.05/response.c:32-36 | in every packet that was built, every pointer met in decoding any of its names leads to an earlier position and to a name that ends before the pointer |
| Response.NameDone | src/djbdns-1.05/response.c:31-49 | once its end is written the whole name and all its suffixes in the table can be read |
| Response.MatchIsOld | src/djbdns-1.05/response.c:32-36 | a name never points into itself |
| NameText.ToDotCat | src/djbdns-1.05/dns_dtda.c:4-35 | appends the text of the name |
| NameText.FromDot | src/djbdns-1.05/dns_dfd.c:6-69 | the loop over label and name buffers is the recursive parser |
| NameText.ParseIs | src/djbdns-1.05/dns_dfd.c:6-69 | a text is the name whose labels are what stands between its dots, without what is empty, and is refused if and only if a label has more than 63 bytes or the name more than 255 |
| NameText.EscapeTakes | src/djbdns-1.05/dns_dfd.c:37-51 | a backslash takes the longest run of at most three octal digits, for their number modulo 256, or one byte for itself |
| NameText.ParseSound | src/djbdns-1.05/dns_dfd.c:6-69 | whatever the text, an accepted name is well-formed and at most 255 bytes long |
| NameText.RoundTrip | src/djbdns-1.05/dns_dtda.c:4-35 | every well-formed name, printed and parsed, comes back in lower case |
| Heapsort.Sort | src/djbdns-1.05/query.c:559-576 | the bottom-up heapsort sorts the array in place and keeps its elements, for every strict weak order |
| Heapsort.Sink | src/djbdns-1.05/query.c:564-571 | the hole sinks to a leaf, the larger child rising |
| Heapsort.Climb | src/djbdns-1.05/query.c:572-575 | the element climbs back and the heap is restored |
| Order.CompareTransitive | src/djbdns-1.05/query.c:143-158 | comparing type and class, then length, then lower-case bytes is transitive, and ties only equal keys |
| Records.IsSmaller | src/djbdns-1.05/query.c:130-158 | the comparison on the packet is the order of records |
| Records.LessIsOrder | src/djbdns-1.05/query.c:130-158 | the comparison is a strict weak order on all positions |
| Records.SmallerTotal | src/djbdns-1.05/query.c:156-157 | of two different records of a packet one is smaller |
| Records.PositionsIncrease | src/djbdns-1.05/query.c:550-557 | the records found follow each other in the packet |
| Records.StretchIsSet | src/djbdns-1.05/query.c:589-595 | a maximal stretch of equal keys of the sorted list is the whole set, in packet order |
| Records.Group | src/djbdns-1.05/query.c:578-695 | the pass visits every set of class IN once, with all its members |
| Records.SortAndGroup | src/djbdns-1.05/query.c:546-695 | the same for the packet itself; fails exactly when a record cannot be read |
| PickDns.AddressDiff | src/djbdns-1.05/pickdns-data.c:54-64 | the sign orders addresses by location and name, zero exactly for equal ones |
| PickDns.LessIsOrder | src/djbdns-1.05/pickdns-data.c:54-64 | the comparison is a strict weak order on all addresses |
| PickDns.Publish | src/djbdns-1.05/pickdns-data.c:206-221 | one record per location and name, keys all different, each holding the addresses of all its lines |
| PickDns.OneRecordEach | src/djbdns-1.05/pickdns-data.c:208-221 | looking up any location and name of a line finds one record with exactly the addresses of its lines |
| Scan.Answers | src/djbdns-1.05/query.c:496-514 | succeeds exactly when all answers can be read and all aliases lead to readable names; whether some answer has the name, class and type asked for; the alias of the last record that gives one; the position behind the last record |
| Scan.Authority | src/djbdns-1.05/query.c:516-533 | succeeds exactly when all records can be read; whether there is an SOA and for how long the last one lets a lack be kept; the owner of the last NS; the position behind |
| Scan.AliasThere | src/djbdns-1.05/query.c:504-508 | an alias is found exactly when some record is an alias of the name |
| Scan.LastOfIs | src/djbdns-1.05/query.c:505-527 | the record that counts is one that passes the test and has none behind it that does, and it is missing only when none does |
| SetData.ItemsReadBack | src/djbdns-1.05/query.c:268-343 | the data of a set, one record behind the other, are read back record by record, and nothing else is read |
| SetData.RawsReadBack | src/djbdns-1.05/query.c:383-393 | records behind their lengths are read back |
| CacheSets.TakeOne | src/djbdns-1.05/query.c:604-678 | what is taken of a record of a type with its own form, and which records are passed over or broken |
| CacheSets.DataFor | src/djbdns-1.05/query.c:600-692 | the data under which a set is kept, when it is not kept, and when it is spoilt |
| CacheSets.SaveData | src/djbdns-1.05/query.c:42-54 | the buffer holds everything saved, or has overflowed for good |
| CacheSets.SaveSet | src/djbdns-1.05/query.c:604-678 | saves exactly the items of the set in packet order, and fails exactly when a record is broken |
| CacheSets.SaveRaws | src/djbdns-1.05/query.c:679-692 | the same for records of no special form |
| CacheSets.KeptIsRead | src/djbdns-1.05/query.c:268-375 | what is later read from the data kept of a set are the items of its records, in order |
| CacheSets.StoreSet | src/djbdns-1.05/query.c:582-694 | a set whose owner is inside the zone asked and under the same root servers goes into the cache under type and lower-case owner with its data and time to live, and no other set does; a broken record ends the packet |
| CacheSets.StoreSets | src/djbdns-1.05/query.c:578-695 | what is put into the cache is exactly what the sets put there, one after the other, up to the first one with a broken record |
| CacheSets.AliasesAreNames | src/djbdns-1.05/query.c:624-629 | whatever the packet, data put into the cache under the type of aliases are names |
| CacheSets.EntriesAreSets | src/djbdns-1.05/query.c:578-695 | everything put into the cache from a packet comes from one whole set; unless a record is broken every set that may be kept is put there |
| CacheSets.EntriesInside | src/djbdns-1.05/query.c:597-598 | whatever the packet, everything put into the cache is under the type and the owner of one of its sets, and this owner ends in the zone asked and has the same closest listed root |
| Replies.RecordParts | src/djbdns-1.05/query.c:775-796 | the names and bytes of an answer record, or failure when it is broken |
| Replies.CachedLikeFresh | src/djbdns-1.05/query.c:268-373 | an answer out of the cache says of a record what an answer out of the packet would say; a record is broken for the one exactly when it is for the other; passed over are addresses of another length and SOAs of the authority section only |
| Replies.KeptSetAnswers | src/djbdns-1.05/query.c:268-373 | a set that was kept is answered later with its records, all of them and in order |
| Replies.ServersFrom | src/djbdns-1.05/query.c:417-425 | the names of servers out of the cache, in order, as many as there is room for |
| Replies.ReferralServers | src/djbdns-1.05/query.c:813-828 | exactly the names that the authority section gives for the new zone, in order, as many as there is room for, unless one of them cannot be read |
| Replies.NamesAreItems | src/djbdns-1.05/query.c:417-425 | these are the names of the records of the set that was kept |
| AnswerProperties.AnswersAre | src/djbdns-1.05/query.c:763-806 | the answers are those of exactly the records of the section that have the name, class and type asked for, in order, and are missing only because such a record cannot be read |
| AnswerProperties.AddressesAre | src/djbdns-1.05/query.c:743-758 | the addresses are those of exactly the records that give the name an address of four bytes, in order |
| AnswerProperties.ReferredAre | src/djbdns-1.05/query.c:817-828 | the servers are those of exactly the first records that name one for the zone, and only when there are sixteen is one left out |
| AnswerProperties.ItemsAre | src/djbdns-1.05/query.c:604-678 | the items of a set are those of exactly its records that are to be kept, in order, and are missing only because a record cannot be read |
| AnswerProperties.CachedIsFresh | src/djbdns-1.05/query.c:268-375 | a set that can be read and fits into 8192 bytes is kept; the answer out of the cache then has exactly its records that are to be kept, in order, and says of each what the packet says |
| AnswerProperties.CachedRawIsFresh | src/djbdns-1.05/query.c:679-692 | of the other types every record is kept as it is, in order, unless one cannot be read |
| AnswerProperties.CachedZone | src/djbdns-1.05/query.c:403-425 | a zone of which a set of servers was kept is known from then on with the names of these servers in order, unless it is listed as a root |
| ResolverState.AliasesArePrefix | src/djbdns-1.05/query.c:98-107 | the aliases in use are exactly the first ones |
| ResolverState.FollowAlias | src/djbdns-1.05/query.c:703-712 | shifting the aliases keeps them the names that led to the current one, each with its time to live |
| ResolverState.ChainLink | src/djbdns-1.05/query.c:101-105 | the aliases, read backward, are the chain from the original name to the current one |
| ResolverState.VisitsBounded | src/djbdns-1.05/query.c:205-206 | a measure that falls at every visit bounds their number by 496 |
| ResolverState.ReferralIsLonger | src/djbdns-1.05/query.c:809-811 | a referral inside the zone asked and above the name lengthens the zone strictly |
| Roots.FindRoot | src/djbdns-1.05/roots.c:15-28 | the first zone of the list that is the name up to case, or none |
| Roots.SearchRoot | src/djbdns-1.05/roots.c:30-41 | the loop over the endings of a name is that search |
| Roots.SearchIsClosest | src/djbdns-1.05/roots.c:30-41 | the search stops at the longest ending of the name that is in the list, and finds nothing only when none is |
| Roots.RootsSame | src/djbdns-1.05/roots.c:52-55 | two names belong to the same root servers exactly when the searches end at the same place |
| CacheView.ConsultNothing | src/djbdns-1.05/query.c:243-398 | the cache is of no use exactly when it says neither that the name is missing nor that it is an alias, and has no records of a type asked for |
| CacheView.ConsultOrder | src/djbdns-1.05/query.c:243-266 | that the name is missing counts more than an alias, and an alias more than records |
| CacheView.ConsultSound | src/djbdns-1.05/query.c:243-398 | a set that is found is of a type asked for; on the way to an address only addresses are found, and aliases are followed to names |
| CacheView.FindSetIs | src/djbdns-1.05/query.c:268-375 | the set that is found is the first one in the order of types that could be |
| CacheView.ZoneIsClosest | src/djbdns-1.05/query.c:400-434 | of all zones that end the name the closest one is taken that the list of root servers or the cache knows anything of |
| CacheView.LackIs | src/djbdns-1.05/query.c:717-736 | what is kept of a lack: a missing name under all types, or missing records under the type asked for, never both |
| CacheView.NoDataIsNotMissing | src/djbdns-1.05/query.c:729-736 | the lack of records is never taken later for the lack of the name |
| CacheView.PutsInside | src/djbdns-1.05/query.c:597-736 | whatever the packet and the state of the query, everything the packet puts into the cache is for a name that ends in the zone asked |
| CacheView.OutsideStays | src/djbdns-1.05/query.c:597-597 | what was known of names outside the zone asked stays as it was or is forgotten |
| QuerySteps.Concluded | src/djbdns-1.05/query.c:468-806 | what a packet comes to for a query on level 0, by the packet alone: an unreadable one fails; unless it is lame or one of its sets is broken, its alias joins the chain, or the response is the chain and that the name is missing, or the chain and exactly its answering records; it fails then only for want of room, a full chain or an unreadable answer |
| QuerySteps.AliasJoins | src/djbdns-1.05/query.c:700-714 | an alias on level 0 is in the chain of every later response of the run with its time to live, and the run fails when sixteen have been found |
| QuerySteps.GivesUp | src/djbdns-1.05/query.c:719-839 | on level 0 a missing name and failing servers end the run at once with the chain and that event, or for want of room |
| QuerySteps.ReferralAsks | src/djbdns-1.05/query.c:809-830 | a referral inside the zone is followed on the level above with the name of the first server that the packet gives for the new zone |
| QuerySteps.NamesKept | src/djbdns-1.05/query.c:702-714 | a run that does not fail only ever adds to the names asked about and their times to live |
| Resolver.Query.NewName | src/djbdns-1.05/query.c:205-434 | the loop is counted, and the limit of 100 ends the query; otherwise the name leads where what is built in, then the cache, then the closest zone that something is known of says |
| Resolver.Query.FromCache | src/djbdns-1.05/query.c:243-398 | answers, goes on or does nothing exactly as the cache says, with the chain and all the records of the set that is found |
| Resolver.Query.Lead | src/djbdns-1.05/query.c:211-434 | the label, the response, the zone and all server lists are those of the first of the three that applies |
| Replies.PutServer | src/djbdns-1.05/query.c:213-217 | an address goes into the first free slot, if there is one |
| Resolver.Query.TakeCached | src/djbdns-1.05/query.c:349-361 | the addresses in the cache go to the level below in order, as far as there is room |
| Replies.GatherAddresses | src/djbdns-1.05/query.c:743-758 | exactly the four-byte addresses that the answer section has for the name go into the list, in order, as far as there is room |
| Resolver.Query.TakeAddresses | src/djbdns-1.05/query.c:741-760 | the same for the servers of the level below, all other levels unchanged, unless a record or an address in one is cut off |
| Resolver.Query.BuiltIn | src/djbdns-1.05/query.c:220-241 | the response is the chain, and the built-in record if its type is asked for |
| Resolver.Query.AnswerAlias | src/djbdns-1.05/query.c:256-262 | the response is the chain and then the alias in the cache |
| Resolver.Query.AnswerParts | src/djbdns-1.05/query.c:268-343 | the response is the chain and then all records of the set in the cache, in order |
| Resolver.Query.AnswerAddresses | src/djbdns-1.05/query.c:363-373 | the same for addresses |
| Resolver.Query.AnswerRaw | src/djbdns-1.05/query.c:377-396 | the same for other types, unless a length is wrong |
| Resolver.Query.FindZone | src/djbdns-1.05/query.c:400-434 | the closest zone that ends the name and that something is known of becomes the zone of the level, with what is known of its servers; the query ends when there is none |
| Resolver.Query.HaveServers | src/djbdns-1.05/query.c:437-457 | with a level to spare and the name of a server left, the first one is looked up on the level above and leaves the list; otherwise the servers are asked for the name in a zone that it is in, or the level fails if and only if no address is known |
| Resolver.Query.Lower | src/djbdns-1.05/query.c:460-465 | entered on levels above 0 only; the level is emptied and everything else is as it was left |
| Resolver.Query.HavePacket | src/djbdns-1.05/query.c:468-830 | a packet counts as a loop and is read exactly when both sections can be; what it says decides the next label, the response, the zone, the servers and what is put into the cache, all of it inside the zone asked; it ends the query only for a broken set, an unreadable server, address or answer, a referral beside the name, or want of room |
| Replies.ReadReply | src/djbdns-1.05/query.c:478-533 | counts, response code and both sections are those of the packet, the authority section behind the answers; fails exactly when these cannot be read |
| Resolver.Query.Weigh | src/djbdns-1.05/query.c:536-830 | a referral that is not inside the zone is passed over, nothing is kept and the server that sent it is forgotten; otherwise an alias comes first, then a missing name, then an answer or lack of data, and a referral only if there is nothing else |
| Resolver.Query.Store | src/djbdns-1.05/query.c:544-697 | the records of the whole packet, brought together set by set, go into the cache as far as the zone asked may speak for them |
| Resolver.Query.Decide | src/djbdns-1.05/query.c:700-830 | where the packet leads once its sets are stored; the lack of a name or of records is kept |
| Resolver.Query.AnswerFrom | src/djbdns-1.05/query.c:762-806 | the response is the chain and then exactly the records of the answer section with the name, class and type asked for, in order |
| Resolver.Query.Lame | src/djbdns-1.05/query.c:536-541 | a referral is refused exactly when it is not strictly inside the zone asked |
| Resolver.Query.FollowReferral | src/djbdns-1.05/query.c:809-830 | the new zone is the referral, a strictly longer suffix of the name, with the servers that the packet names for it and no addresses |
| Resolver.Query.FollowCname | src/djbdns-1.05/query.c:702-714 | on every level the alias becomes the name of the level; on level 0 it joins the chain with its time to live, and after sixteen aliases the query ends |
| Resolver.Query.Shift | src/djbdns-1.05/query.c:705-711 | the shifting loops move the current name to the front of the aliases |
| Resolver.Query.Rqa | src/djbdns-1.05/query.c:94-111 | the response starts with the name originally asked for, followed by the chain of aliases to the current name, each with its own time to live |
| Resolver.Query.Without | src/djbdns-1.05/query.c:721-727 | gives up the level with nothing changed, or answers on level 0 with the chain and the event and nothing else |
| Resolver.Query.Step | src/djbdns-1.05/query.c:197-845 | every step is the one of its label, keeps the invariant and lowers the measure of what is left to do |
| Resolver.Query.Run | src/djbdns-1.05/query.c:160-845 | the machine ends, by a chain of steps each of which is the one of its label, waiting with a zone of its name, failed, or with the chain and then only records of the type asked for |
| Resolver.Query.Start | src/djbdns-1.05/query.c:847-861 | a query begins on level 0 with the name asked for as the first new name and nothing else known, and runs from there; transfers are refused |
| Resolver.Query.Get | src/djbdns-1.05/query.c:863-872 | a packet is heard and runs on from where it leads, and on level 0 comes to what it says; failing servers run from there, and on level 0 give the chain and failure, or nothing for want of room; otherwise nothing happens |
| Resolver.Query.Bounded | src/djbdns-1.05/query.c:205-206 | for all packets, failures and cache contents a query sends at most 491 questions and visits its labels at most 496 times |
| Qmerge.Pool.Free | src/djbdns-1.05/qmerge.c:35-48 | the count of the slot stays the number of its holders |
| Qmerge.Pool.Start | src/djbdns-1.05/qmerge.c:50-86 | joins the slot with the same question if there is one, else takes a free slot, which always exists; fails only when the transmission cannot start |
| Qmerge.KeysShare | src/djbdns-1.05/qmerge.c:19-26 | two questions share a transmission exactly when they have the same type and agree in name and zone up to case |
| Qmerge.Pool.PrepareIo | src/djbdns-1.05/qmerge.c:88-98 | only the first holder in a round touches the transmission |
| Qmerge.Pool.Get | src/djbdns-1.05/qmerge.c:100-115 | a result is looked up once and then told to every holder |
| Qmerge.SomeSlotFree | src/djbdns-1.05/dnscache.c:58-66 | whoever has no handle finds a slot nobody holds: 220 slots, 220 clients, one handle each |
| Qmerge.TakeKeeps | src/djbdns-1.05/qmerge.c:71-85 | taking a free slot for a new question keeps counts, questions apart and call order |
| Qmerge.CallKeeps | src/djbdns-1.05/qmerge.c:88-115 | preparing and looking alternate, and nothing is called after a result |
| Qmerge.ResultWaits | src/djbdns-1.05/qmerge.c:100-115 | over any run of steps of other clients a holder's result stays |
| Transmit.Transmission.Start | src/djbdns-1.05/dns_transmit.c:196-222 | the query for the question is made and sent, by UDP only when it fits into 512 bytes; failure without a lack of sockets or memory means that every server was tried |
| Transmit.Transmission.ThisUdp | src/djbdns-1.05/dns_transmit.c:97-133 | tries servers in order, round by round; ends waiting, or holding nothing after every server was tried in every round left, unless there is no socket |
| Transmit.Transmission.ThisTcp | src/djbdns-1.05/dns_transmit.c:147-182 | tries the remaining servers once each; ends waiting, or holding nothing after every server was tried, unless there is no socket |
| Transmit.Transmission.Write | src/djbdns-1.05/dns_transmit.c:297-313 | each write goes on behind the one before; when the answer is awaited the server has been sent exactly the query if and only if writing to it began at the first byte |
| Transmit.Transmission.TryTcp | src/djbdns-1.05/dns_transmit.c:156-178 | a connection established at once is written to from the position of the connection before, one established later from the first byte |
| Transmit.AcceptedMeans | src/djbdns-1.05/dns_transmit.c:11-58 | accepted are exactly whole packets with the number of the query, one question for its name up to case, its type and class IN, and a response code that says success or a missing name |
| Transmit.EchoIsRelevant | src/djbdns-1.05/dns_transmit.c:32-58 | a packet that repeats the number and the question of the query is never irrelevant |
| Transmit.Transmission.GetUdp | src/djbdns-1.05/dns_transmit.c:258-284 | an acceptable packet of at most 512 bytes is taken as it is unless there is no memory; an irrelevant or longer one changes nothing; a truncated one begins TCP; after one that says failure the next server is asked, except in the last but one round |
| Transmit.WrittenWhole | src/djbdns-1.05/dns_transmit.c:302-312 | when the position is at the end of the query, what was written is the query if and only if writing began at position 0, for every sequence of writes |
| Transmit.WriteMore | src/djbdns-1.05/dns_transmit.c:302-304 | what has been written grows by every write, also when the position is beyond the query and wraps |
| Transmit.BeginsInside | src/djbdns-1.05/dns_transmit.c:168-171 | after five bytes read from one server and a connection to the next one at once, a single write takes the position to the end without the first five bytes |
| Transmit.Transmission.Get | src/djbdns-1.05/dns_transmit.c:241-366 | for everything that may be found at every stage, what the call does: goes on waiting, goes on to the next server, begins TCP, reads or writes on, or ends with the packet; success holds only a packet that answers the query, failure holds nothing and means that every server was tried, unless there are no sockets or memory |
| Transmit.Transmission.ReadPacket | src/djbdns-1.05/dns_transmit.c:344-363 | the pieces are put together in the order in which they come; the whole packet is judged like one by UDP, taken when it is acceptable, and otherwise the next server is asked |
| Transmit.AttemptsBounded | src/djbdns-1.05/dns_transmit.c:76-194 | at most 16 UDP attempts for every round left and 16 TCP attempts, all UDP before all TCP, for every sequence of network outcomes |
| Trace.Tables.QtAdd | src/djbdns-1.05/dnstrace.c:129-149 | adds a task unless it is there up to case or asks about the root |
| Trace.Tables.QueryAdd | src/djbdns-1.05/dnstrace.c:151-172 | a question not known up to case is entered, and the table is again the join; a known one changes nothing |
| Trace.Tables.NsAdd | src/djbdns-1.05/dnstrace.c:174-204 | a server not known up to case is entered after the question for its address, nothing else is, and the table is again the join; a known one changes nothing |
| Trace.Tables.AddressAdd | src/djbdns-1.05/dnstrace.c:206-234 | an address not known up to case is entered, and the table is again the join; a known one changes nothing |
| Trace.JoinUpToCase | src/djbdns-1.05/dnstrace.c:129-234 | everything ever given, in whatever case, has its tasks |
| Trace.TaskInZone | src/djbdns-1.05/dnstrace.c:129-234 | a task is only for servers of a zone that the question is in, and never about the root |
| Trace.TaskIs | src/djbdns-1.05/dnstrace.c:129-234 | every task has the name and type of a question, the zone of a server, and an address of the name of that server |
| RandomIp.Shuffle | src/djbdns-1.05/random-ip.c:25-31 | whatever the random numbers, the table is a permutation of the bytes |
| RandomIp.Mix | src/djbdns-1.05/random-ip.c:54-61 | the hundred rounds in place are the mixing function |
| RandomIp.MixedInjective | src/djbdns-1.05/random-ip.c:54-61 | mixing keeps different bytes different |
| RandomIp.DistinctWhen | src/djbdns-1.05/random-ip.c:40-62 | no address is printed twice if and only if a byte is fixed or at most 2^32 addresses are asked for |
| RandomIp.Print | src/djbdns-1.05/random-ip.c:33-76 | the same for the program, with the number of addresses and their fixed bytes |
| Datetime.FromSeconds | src/ezmlm-0.53/datetime.c:4-55 | the date and time exist and are exactly the seconds given, the weekday is right, and nothing overflows |
| Datetime.YearStartCounts | src/ezmlm-0.53/datetime.c:27-32 | the count of days is the one that starts in 1970 and advances by the length of each year |
| Datetime.DateUnique | src/ezmlm-0.53/datetime.c:51-54 | a day has only one date |
| Datetime.MarchStart | src/ezmlm-0.53/datetime.c:27-42 | the parts of the day number are the year that begins in March and the day in it |
| Datetime.MonthOfDay | src/ezmlm-0.53/datetime.c:44-49 | dividing by 30.6 days gives the month and the day in it |
| Datetime.YdayRightWhen | src/ezmlm-0.53/datetime.c:39-51 | the day of the year is right if and only if the seconds are not in the first 306 days of the second, third or fourth century, where every 400 years begin on a first of March |
| Datetime.YdayRightOn | src/ezmlm-0.53/datetime.c:39-51 | on the date on which the seconds fall it is right if and only if this is in January, February, or a year that does not end a century or is a leap year |
| Datetime.FirstOfMarch2100 | src/ezmlm-0.53/datetime.c:39 | on 1 March 2100 it is 60 instead of 59 |
| Subscribe.Subscribers.Update | src/ezmlm-0.53/subscribe.c:26-96 | errors for exactly the addresses that are refused; a completed call replaces one file and reports whether the address was added or removed; a call that is stopped leaves the old or the new files; any other failure is one of the system |
| Subscribe.Subscribers.CopyLines | src/ezmlm-0.53/subscribe.c:72-82 | all lines are copied but the one taken off |
| Subscribe.Subscribers.IsSub | src/ezmlm-0.53/issub.c:20-62 | looking into one file decides membership in the whole list, unless the system refuses |
| Subscribe.ReplacedIsUpdate | src/ezmlm-0.53/subscribe.c:69-94 | the replaced file adds or removes this address and no other |
| Subscribe.ReplacedOk | src/ezmlm-0.53/subscribe.c:69-94 | the files stay one set without repetition, every address in the file of its hash |
| Subscribe.ReportsChange | src/ezmlm-0.53/subscribe.c:95 | the result is 1 exactly when the set changed |
| Subscribe.OnlyInItsFile | src/ezmlm-0.53/subscribe.c:45-48 | an address is on the list exactly when it is in the file of its hash |
| Subscribe.LinesJoin | src/ezmlm-0.53/subscribe.c:72-82 | lines that are written are read back |
| Subscribe.NormalStorable | src/ezmlm-0.53/subscribe.c:36-43 | an accepted address is stored in the form in which it is looked up |

## Left out

- Cache.ResolverCache.Get: gives a copy of the data where the source gives a pointer into the array, which later calls may overwrite.
- CdbMake.Writer: `split` and `hash` are two arrays, in the source two parts of one block of memory; that writes fail is arbitrary.
- CdbWalk.Walk: the address records printed for each name, and which names belong to the zone.
- Resolver.Query.HaveServers: the random order of the servers and the local address; who sends is arbitrary up to success or failure.
- Resolver.Query.Special: which names are addresses, four numbers as labels, is an arbitrary function.
- Resolver.Query.Remember: the cache drops any entries at any time; how it stores them is modelled in `Cache` and not connected with the queries. What other queries put there is seen at the beginning of every call.
- Resolver.Query.Emit: whether a record fits into the response is arbitrary, and recorded; `Response` is not connected with the queries.
- Transmit.Transmission.Start: deadlines, the choice of local ports and the numbers of the queries are arbitrary; the name must be shorter than 2^32 - 18 bytes.
- Transmit.Transmission.Write: what is sent from a position beyond the query is arbitrary.
- Qmerge.Pool: the transmission behind a slot is seen only through its calls and their results, and no statement says when a waiting client is told.
- PickDns.Publish: the lines of the data file and their syntax; the records of the other kind are any records with another first letter.
- Trace.Tables: the loop that puts the tasks to the servers and reads the packets.
- Subscribe.Subscribers: the lock is taken for granted, so that programs run one after the other; a file name is the number of the file.
- Sockets, polling, files, processes, the environment and logging: replaced by arbitrary outcomes.
- The quoted-printable and base64 code, the programs that manage and send mail, and the configuration programs: no compact invariant.
- Exhaustion of memory: an arbitrary failure where structures are allocated; names copied out of packets and the cache always find memory.
