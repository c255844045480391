# FABLE core in Dafny

FABLE is a two-party oblivious batch table lookup. The two parties are ALICE, who holds the table, and BOB, who holds the queries. The protocol has these stages:

- Sort the secret queries with a bitonic network that logs every swap.
- Deduplicate the queries.
- Retrieve the buckets of a cuckoo hash table by PIR.
- Turn the retrieved buckets into XOR shares.
- Align the queries with their buckets by a clear-key sort, decode each bucket, undo the alignment and copy the answers back onto the duplicates.

The repository also contains:

- SPLUT, an OT-based lookup;
- an AES-128 boolean circuit;
- three applications: an embedding lookup, a join and a FLUTE table generator.

This project models the sequential logic under all of that on clear values:

- A secret `Bit` is a `bool`.
- A secret `Integer` is a bit string, least significant bit first, or the number it stands for.
- `^` is exclusive or.
- `If(c, a, b)` is a conditional.

The code that updates arrays in place becomes methods over Dafny arrays. Each such method is proved against a specification function. The specification functions carry the properties: sortedness, permutation, undo round trips, layout round trips and end-to-end correctness.

| Dafny files | what they model |
|---|---|
| `swap_log.dfy` | swap logs and `permute` |
| `bitonic.dfy`, `bitonic_sorted.dfy` | the bitonic network |
| `sort_spec.dfy`, `sort.dfy` | the sort |
| `dedup.dfy` | deduplication |
| `layout.dfy`, `lookup_shares.dfy`, `lookup_context.dfy`, `lookup.dfy` | the lookup |
| `splut.dfy` | SPLUT |
| `aes_spec.dfy` | FIPS 197, as an independent reference |
| `aes_words.dfy`, `aes_sbox.dfy`, `aes.dfy` | the AES circuit |
| `embedding.dfy` | the embedding application |
| `join.dfy` | the join application |
| `text.dfy`, `flute.dfy`, `lut_types.dfy` | the FLUTE generator and the LUT-type names |
| `dpf_cmp.dfy` | the one-hot encoder |

`permute` and `greatestPowerOfTwoLessThan` are defined outside the files modelled here, so they are specified from their uses:

- `permute` replays the records of a log forward; with `invert` it replays them backward.
- `greatestPowerOfTwoLessThan(n)` is the power of two `m` with `m < n <= 2m`.

## Model

| member | source | states |
|---|---|---|
| SwapLog.ExchangeAt | src/GC/sort.cpp:11-12 | one record exchanges the two positions it names when its decision is set, and no other position changes |
| SwapLog.ExchangeInvolution | src/GC/sort.cpp:11-12 | an exchange is its own inverse |
| SwapLog.PermuteAppend | src/GC/sort.cpp:74-75 | replaying `l1 + l2` forward replays `l1` and then `l2` |
| SwapLog.UnpermuteAppend | test/test_sort.cpp:54-58 | replaying `l1 + l2` backward replays `l2` backward and then `l1` backward |
| SwapLog.UndoPermute | test/test_sort.cpp:54-67 | replaying a log backward restores what replaying it forward produced |
| SwapLog.RedoPermute | test/test_sort.cpp:54-67 | replaying forward restores what replaying backward produced |
| SwapLog.PermuteMultiset | src/GC/sort.cpp:74-75 | replaying a log leaves the multiset of elements unchanged |
| SwapLog.UnpermuteMultiset | src/GC/deduplicate.cpp:39 | replaying a log backward leaves the multiset unchanged |
| SwapLog.PermuteMap | src/GC/sort.cpp:74-75 | replaying a log commutes with any elementwise map, because records move values without reading them |
| SwapLog.UnpermuteMap | src/GC/deduplicate.cpp:39 | the same for the backward replay |
| SwapLog.PermutePrefix | src/GC/sort.cpp:42-47 | a log that fits a prefix acts on that prefix alone and leaves the suffix unchanged |
| SwapLog.UnpermutePrefix | src/GC/deduplicate.cpp:39-40 | the same for the backward replay, so truncating after `permute(..., true)` keeps exactly the batch |
| SwapLog.PermuteDistinct | src/GC/lookup.cpp:388 | replaying a log keeps distinct elements distinct |
| SwapLog.IndexMap | src/GC/lookup.cpp:388 | the position map of a log is a permutation of `0..n-1` |
| SwapLog.PermuteAt | src/GC/lookup.cpp:388 | replaying a log moves position `IndexMap(log, n)[p]` to position `p` |
| BitonicNetwork.GreatestPowerOfTwoLessThan | src/GC/sort.cpp:23 | for `n >= 2` the result `m` satisfies `1 <= m < n <= 2m` |
| BitonicNetwork.GreatestPowerOfTwoLessThanIsPow2 | src/GC/sort.cpp:23 | that `m` is a power of two |
| BitonicNetwork.PowerBelowUnique | src/GC/sort.cpp:23 | only one power of two has that property, so any implementation gives this value |
| BitonicNetwork.GreatestPowerOfTwoLessThanHalf | src/GC/sort.cpp:23-27 | below a power of two `n`, `m` is `n / 2` |
| BitonicNetwork.Decide | src/GC/sort.cpp:9-10 | a record names the compared pair `(i, j)`; it is set only for in-range positions whose keys are out of order for `acc` |
| BitonicNetwork.StepAt | src/GC/sort.cpp:7-12 | after a compare-exchange `key[i]` and `key[j]` are ordered for `acc` (`<=` if ascending, `>=` otherwise), and nothing else moves |
| BitonicNetwork.RunReplay | src/GC/sort.cpp:74-75 | replaying the log a network records reproduces the keys it leaves |
| BitonicNetwork.RunLogPairs | src/GC/sort.cpp:10 | the positions a network records are its comparators' positions, whatever the keys |
| BitonicNetwork.RunFrame | src/GC/sort.cpp:21-38 | a network confined to `[lo, hi)` leaves every other position alone |
| BitonicNetwork.RunMultiset | src/GC/sort.cpp:11-16 | a network only reorders the keys |
| BitonicNetwork.MergeNetBetween | src/GC/sort.cpp:21-29 | `bitonic_merge(lo, n)` compares only positions `lo <= i < j < lo + n` |
| BitonicNetwork.SortNetBetween | src/GC/sort.cpp:31-38 | `bitonic_sort(lo, n)` compares only positions `lo <= i < j < lo + n` |
| BitonicNetwork.CleanAt | src/GC/sort.cpp:24-25 | after the half cleaner's first `r` rounds, each treated pair holds its low and high value |
| BitonicSorted.RunThreshold | src/GC/sort.cpp:21-38 | a network commutes with thresholding, which is the 0-1 principle |
| BitonicSorted.CleanBitonic | src/GC/sort.cpp:24-25 | the half cleaner splits a 0-1 bitonic range into a clean half and a bitonic half |
| BitonicSorted.MergeSortsValley | src/GC/sort.cpp:21-29 | `bitonic_merge` sorts a 0-1 valley, for any `n`, not only powers of two |
| BitonicSorted.SortSorts01 | src/GC/sort.cpp:31-38 | `bitonic_sort` sorts every 0-1 input |
| BitonicSorted.SortNetSorts | src/GC/sort.cpp:31-38 | `bitonic_sort(lo, n, acc)` leaves `[lo, lo + n)` sorted in `acc`'s direction, for every input and every `n` |
| BitonicSorted.SortNetPermutes | src/GC/sort.cpp:31-38 | the sort is a permutation of the keys |
| BitonicSorted.SortNetFrame | src/GC/sort.cpp:31-38 | positions outside `[lo, lo + n)` are untouched |
| SortSpec.SortTraceSorts | src/GC/sort.cpp:42-47 | the keys a sort leaves: (1) the range is sorted; (2) the keys are a permutation of the input; (3) the frame is unchanged; (4) they equal the log replayed on the input |
| SortSpec.SortTraceWithin | src/GC/sort.cpp:21-38 | every record of a sort of `[lo, lo + n)` has `lo <= i < j < lo + n` |
| SortSpec.SortTracePairs | src/GC/sort.cpp:10 | the number and positions of the records depend only on `lo`, `n` and the direction, never on the keys |
| SortSpec.ExecReplays | src/GC/sort.cpp:74-75 | the keys any call leaves are its records replayed on its input |
| SortSpec.SecretRunKeys | src/GC/sort.cpp:7-12 | in secret-key mode column 0 of the rows follows the key trace |
| SortSpec.SecretMergeSteps | src/GC/sort.cpp:21-29 | in secret-key mode, the half cleaner followed by the two recursive merges gives the merge's trace |
| SortSpec.ClearMergeSteps | src/GC/sort.cpp:21-29 | the same in clear-key mode |
| SortSpec.SecretSortSteps | src/GC/sort.cpp:31-38 | in secret-key mode, the two half sorts followed by the merge give the sort's trace |
| SortSpec.ClearSortSteps | src/GC/sort.cpp:31-38 | the same in clear-key mode |
| Sort.CompResult.constructor | src/GC/sort.cpp:43 | a fresh result has an empty log and an empty `plain_buffer` |
| Sort.CmpSwap | src/GC/sort.cpp:6-19 | secret mode: every column is exchanged by one decision on column 0, and exactly that one record is appended to the log. Clear mode: only `plain_key` is exchanged and the record goes to `plain_buffer`; data and log are untouched |
| Sort.HalfCleaner | src/GC/sort.cpp:24-25 | the loop `cmp_swap(i, i + m)` for `i` in `[lo, lo + n - m)` leaves the state the half cleaner's trace gives, in either mode |
| Sort.BitonicMerge | src/GC/sort.cpp:21-29 | the state after `bitonic_merge` is the trace of `MergeRange(lo, n)`; the other mode's state is untouched |
| Sort.BitonicSort | src/GC/sort.cpp:31-38 | the state after `bitonic_sort` is the trace of `SortRange(lo, n)`; `n <= 1` changes nothing |
| Sort.PermuteInPlace | test/test_sort.cpp:54-58 | `permute(log, arr, invert)` leaves `Permute(log, arr)`, or `Unpermute(log, arr)` when inverted |
| Sort.Promote | src/GC/sort.cpp:68-71 | the promoted log has the buffer's positions in the buffer's order, with the fed decision bits |
| Sort.PromoteOwn | src/GC/sort.cpp:60-71 | promoting a buffer with its own decisions gives the buffer back |
| Sort.PromotePairs | src/GC/sort.cpp:60-71 | promoting with another log's decisions over the same pairs gives that other log |
| Sort.BufferDecisions | src/GC/sort.cpp:60-64 | `b[k]` is the decision of buffer record `k` |
| Sort.PromoteBuffer | src/GC/sort.cpp:68-72 | the log is extended by the promoted buffer and `plain_buffer` is emptied |
| Sort.SecretSort | src/GC/sort.cpp:42-47 | the rows and the log of `sort(data, size, acc)` are the trace of `SortRange(0, size, acc)` |
| Sort.SecretSortSorts | test/test_sort.cpp:28-37 | after a secret sort: the first `size` keys are ordered; the rows are a permutation with an untouched suffix; every record lies in the range; and `permute(log, _, true)` restores the input |
| Sort.SecretSortColumn | src/GC/sort.cpp:48-53 | the single-column wrapper writes the sorted column back and returns the sort's log |
| Sort.ClearSort | src/GC/sort.cpp:54-77 | after the clear-key sort: (1) `plain_key` is sorted; (2) the log is the promoted buffer, carrying BOB's bits; (3) the buffer is empty; (4) every data column is permuted by the log |
| Sort.ClearSortSorts | test/test_sort.cpp:42-51 | the clear keys come out ordered and permuted; the promoted log replays that order, and its backward replay undoes it |
| Sort.ClearSortAgrees | src/GC/sort.cpp:65-71 | both parties end with BOB's log, even though ALICE's own clear keys differ |
| Sort.SortsAgree | test/test_sort.cpp:54-67 | a secret sort and a clear sort of the same keys record the same log, so each can undo the other |
| Sort.ClearSortColumn | src/GC/sort.cpp:78-83 | the single-column clear-key wrapper writes the permuted column back |
| Sort.ClearSortKeys | src/GC/sort.cpp:84-88 | the clear-key sort with no data sorts `plain_key` and returns the promoted log |
| Dedup.LabelsAt | src/GC/deduplicate.cpp:18-20 | `label[i]` holds iff `i >= 1` and `in[i] == in[i-1]`; `label[0]` is never set |
| Dedup.ReplaceAt | src/GC/deduplicate.cpp:21-22 | a labelled position `i` becomes dummy `i`; every other position, including 0, keeps its value |
| Dedup.SortedPrefix | src/GC/deduplicate.cpp:10 | the first `batch_size` queries come out ascending and permuted; the rest are unchanged |
| Dedup.DedupDistinct | src/GC/deduplicate.cpp:10-22 | with queries `< db_size` and dummies that fit `bitlength + 1` bits, the entries are pairwise distinct; replaced entries are `>= db_size`; kept ones are `< db_size` and unchanged |
| Dedup.ReplacedValue | src/GC/deduplicate.cpp:14-22 | with fitting dummies, a replaced position `p` holds `db_size + p` |
| Dedup.SpreadRuns | src/GC/deduplicate.cpp:35-37 | after the left-to-right loop, every position of a run of duplicates carries the run head's answer |
| Dedup.RemapRestores | src/GC/deduplicate.cpp:31-41 | end to end: if every unlabelled position holds `T` of its sorted query, `remap` gives `T(q[i])` at every original position, repeated queries included |
| Dedup.Deduplicate | src/GC/deduplicate.cpp:8-29 | the queries are sorted, then labelled positions are replaced; the context holds the sort log, the labels and the config |
| Dedup.MakeDummies | src/GC/deduplicate.cpp:12-16 | `dummies[i]` is `db_size + i` in `bitlength + 1` bits |
| Dedup.LabelDuplicates | src/GC/deduplicate.cpp:18-20 | the label array is `Labels` of the sorted queries |
| Dedup.ReplaceDuplicates | src/GC/deduplicate.cpp:21-22 | the queries become `Replace` of the sorted queries and labels |
| Dedup.Remap | src/GC/deduplicate.cpp:31-41 | `resp` becomes the backward replay of the spread answers, truncated to `batch_size` |
| Layout.OffsetBlocks | src/GC/lookup.cpp:261-263 | the offset of bit `k` of cell `(r, c)` is `r * (cols * width) + c * width + k` |
| Layout.FlattenAt | src/GC/lookup.cpp:256-267 | the flattened buffer holds bit `k` of cell `(r, c)` at its offset |
| Layout.SliceCell | src/GC/lookup.cpp:271-276 | slicing the buffer where a cell starts gives back the cell |
| Layout.WriteBits | src/OT/splut.cpp:70-73 | writing `width` bits from `start` extends the prefix that agrees with the target buffer |
| LookupShares.FlatAt | src/GC/lookup.cpp:256-267 | bit `k` of slot `(h, b)` is at `h*num_bucket*datablock_size + b*datablock_size + k`: index bits first, then entry bits |
| LookupShares.FlattenShares | src/GC/lookup.cpp:253-267 | BOB's buffer `b` is the flat layout of BOB's decoded responses |
| LookupShares.SliceFlat | src/GC/lookup.cpp:271-276 | slicing the layout at the same offsets recovers exactly the index and the entry of every slot |
| LookupShares.SliceShares | src/GC/lookup.cpp:346-351 | `B_index[h][b]` and `B_entry[h][b]` are the index and entry slices of the fed buffer |
| LookupShares.ReconstructShares | src/GC/lookup.cpp:355-360 | `index[h][b]` is `A_index[h][b] ^ B_index[h][b]`, and likewise `entry`, for every `h < w` and `b < num_bucket` |
| LookupShares.XorTableUnmasks | src/GC/lookup.cpp:355-360 | XOR with ALICE's share undoes a masking by that share |
| LookupShares.SharesRecover | src/GC/lookup.cpp:253-360 | if BOB's responses are data masked by ALICE's shares and BOB lays them out, sliced XOR reconstruction yields the data |
| LookupShares.LowMCPlaintext | src/GC/lookup.cpp:149-159 | `m[j][i]` is bit `j` of query `i` for `j <= LUT_INPUT_SIZE` and 0 above |
| LookupContext.AbsentSpec | src/GC/lookup.cpp:370-375 | the dummy buckets are exactly the buckets missing from `cuckoo_map`, each once, ascending |
| LookupContext.DummyBuckets | src/GC/lookup.cpp:370-375 | the bucket loop collects `Absent(keys, n)` |
| LookupContext.SortReferencePermutation | src/GC/lookup.cpp:368-382 | under a cuckoo placement there are `n - batch` dummies, and `sort_reference` is a permutation of `[0, n)` |
| LookupContext.BuildSortReference | src/GC/lookup.cpp:368-382 | BOB fills `inv_cuckoo_map[i]` and then the dummies; ALICE's reference stays zero |
| LookupContext.SortedBucketsAreIota | src/GC/lookup.cpp:383 | a sorted permutation of `[0, n)` is `0, 1, ..., n-1` |
| LookupContext.PartiesAgree | src/GC/lookup.cpp:383 | both parties' clear-key sort of `sort_reference` ends with BOB's log |
| LookupContext.ContextAligns | src/GC/lookup.cpp:386-400 | the context log moves position `i` to bucket `sort_reference[i]`, and the backward replay brings it back |
| Lookup.DecodeNoMatch | src/GC/lookup.cpp:390-398 | a bucket none of whose `w` slots holds the query decodes to zero |
| Lookup.DecodeOneMatch | src/GC/lookup.cpp:390-398 | a bucket exactly one of whose slots holds the query decodes to that slot's entry |
| Lookup.DecodeBucket | src/GC/lookup.cpp:395-397 | the XOR accumulation over `hash_idx` computes the bucket's decode |
| Lookup.DecodeBuckets | src/GC/lookup.cpp:390-398 | `result[b]` decodes the query aligned with bucket `b` |
| Lookup.Resize | src/GC/lookup.cpp:386-387 | `resize(n, zero)` keeps the queries and pads with zeros to `n` |
| Lookup.PadQueries | src/GC/lookup.cpp:386-387 | the padded buffer is `Resize` of the queries |
| Lookup.CollectResults | src/GC/lookup.cpp:386-400 | pad, permute by the context log, decode and unpermute |
| Lookup.ConvertShares | src/GC/lookup.cpp:339-360 | slice BOB's fed buffer and XOR it with ALICE's shares |
| Lookup.Deduplicated | src/GC/lookup.cpp:120 | `fable_lookup` deduplicates its own copy of the queries |
| Lookup.ContextSort | src/GC/lookup.cpp:367-383 | the context log of each party is `PartyLog` |
| Lookup.AnswersUnfold | src/GC/lookup.cpp:386-405 | the lookup's answer: deduplicate, then collect, then spread, then replay backward, then truncate |
| Lookup.FableLookup | src/GC/lookup.cpp:111-423 | the sequential variant returns `Answers` of the deduplicated queries, the party's context log and the reconstructed tables |
| Lookup.FableLookupFuse | src/GC/lookup.cpp:425-740 | the fused variant returns the same `Answers` from the same inputs |
| Lookup.BucketAnswer | src/GC/lookup.cpp:386-400 | a distinct query lands in its bucket, decodes to the retrieved entry and comes back to its position |
| Lookup.LookupCorrect | src/GC/lookup.cpp:368-405 | end to end: under a cuckoo placement and a successful retrieval, the lookup answers `T(q[i])` at every position `i < batch_size` |
| Splut.HighestPowerOfTwoInSpec | src/OT/splut.cpp:16-18 | for `x > 0`, `0x80000000 >> clz(x)` is a power of two `p` with `p <= x < 2p`, and no larger power of two is `<= x` |
| Splut.ChunkSizeSpec | src/OT/splut.cpp:47 | the chunk size is at most the batch size, positive for a non-empty batch, and divides a power-of-two batch |
| Splut.Processed | src/OT/splut.cpp:62 | only `(batch_size / chunk_size) * chunk_size` items are served, and fewer than `chunk_size` are left |
| Splut.ShareBound | src/OT/splut.cpp:51-53 | `z[b] < 2^l_out`, and masking it again changes nothing |
| Splut.RandomShares | src/OT/splut.cpp:51-53 | `z[b]` is the random word masked by `out_mask` |
| Splut.ChoiceMasks | src/OT/splut.cpp:86-88 | `u[b] = x[b] ^ s[b]` |
| Splut.XorIndexCancel | src/OT/splut.cpp:66-69 | XORing an `l_in`-bit index twice with the same value gives it back |
| Splut.Rotated | src/OT/splut.cpp:66-69 | slot `i` of item `b` is `(T[i ^ x[b]] ^ get_mask(b, i ^ u[b]) ^ z[b]) & out_mask`, so it fits `l_out` bits |
| Splut.ServeChunk | src/OT/splut.cpp:65-75 | `v_serialized` holds bit `j` of slot `i` of item `c` at `c*(lut_size*l_out) + i*l_out + j` |
| Splut.ServerOnline | src/OT/splut.cpp:62-78 | ALICE sends one serialised buffer per chunk, in order |
| Splut.ReadSlot | src/OT/splut.cpp:97-101 | BOB reads the `l_out` bits of slot `x[b]` from the offsets ALICE wrote |
| Splut.SlotIsRotation | src/OT/splut.cpp:70-73 | the slot BOB reads is ALICE's rotated value at that slot: the serialisation round trip |
| Splut.ExtractItem | src/OT/splut.cpp:101-102 | `z[b] = (v ^ ms[b]) & out_mask` |
| Splut.ClientChunk | src/OT/splut.cpp:95-103 | BOB's pass over one chunk updates the items of that chunk |
| Splut.ClientOnline | src/OT/splut.cpp:91-104 | BOB's shares after all chunks |
| Splut.Unmask | src/OT/splut.cpp:68-69 | the masking algebra: ALICE's share XOR the unmasked slot is the entry cut to `l_out` bits |
| Splut.SplutCorrect | src/OT/splut.cpp:51-104 | if the OT masks agree at BOB's choice, then for every served item `z_A ^ z_B` is `T[x_A ^ x_B]` cut to `l_out` bits, and equals the entry itself when it fits |
| Splut.Leftover | src/OT/splut.cpp:62 | items past the last whole chunk keep BOB's initial share |
| AesSpec.MulTwo | src/GC/aes.cpp:334-339 | `{02} • b` in GF(2^8) (section 4.2 of FIPS 197) is `xtime(b)` |
| AesSpec.MulThree | src/GC/aes.cpp:101-104 | `{03} • b` is `xtime(b) ^ b` |
| AesSpec.ShiftRowsCell | src/GC/aes.cpp:88-92 | the reference `ShiftRows` satisfies equation (5.3) of FIPS 197: `s'[r][c] = s[r][(c + r) mod 4]` |
| AesWords.XTime | src/GC/aes.cpp:334-339 | shift left and XOR the mask that repeats bit 7 at bits 0, 1, 3 and 4; this is multiplication by `x` (section 4.2.1 of FIPS 197) |
| AesWords.WordBytesRoundTrip | src/GC/aes.cpp:304-318 | `bytes2word(word2bytes(w)) == w` |
| AesWords.BytesWordRoundTrip | src/GC/aes.cpp:304-318 | `word2bytes(bytes2word(b)) == b` |
| AesWords.Word2BytesFips | src/GC/aes.cpp:304-310 | `word2bytes` lists the FIPS 197 bytes of a word, last to first |
| AesWords.RotWord | src/GC/aes.cpp:328-332 | the bytes `[b0, b1, b2, b3]` become `[b3, b0, b1, b2]`, which is the FIPS 197 `RotWord` |
| AesWords.RotWordFour | src/GC/aes.cpp:328-332 | four rotations give the word back |
| AesWords.SubWord | src/GC/aes.cpp:320-326 | the S-box circuit on each byte, which is the FIPS 197 `SubWord` |
| AesWords.RconWord | src/GC/aes.cpp:345-351 | `x^(n-1)`, zero-extended to 32 bits, is the FIPS 197 `Rcon[n]` |
| AesWords.KeyWord | src/GC/aes.cpp:280-282 | key word `i`, read from bits `32i..32i+32`, is FIPS 197 key word `i` |
| AesSBoxProof.SBoxAgrees | src/GC/aes.cpp:131-265 | the S-box circuit agrees with the table of section 5.1.1 of FIPS 197 on all 256 bytes |
| Aes.ShiftIndices | src/GC/aes.cpp:88-92 | shifts of `-1`, `-2` and `-3` taken as unsigned 32-bit numbers rotate a row by 3, 2 and 1 places |
| Aes.ShiftRowsSource | src/GC/aes.cpp:88-92 | the three `ShiftRow` calls perform the FIPS 197 `ShiftRows` on the state the source state stands for |
| Aes.XorKeyTwice | src/GC/aes.cpp:122-128 | applying `AddRoundKey` twice with the same key is the identity |
| Aes.RoundKeyView | src/GC/aes.cpp:294-301 | XORing source round key `r` is the FIPS 197 `AddRoundKey` with round `r` |
| Aes.ExpandRot | src/GC/aes.cpp:284-292 | for `i mod 4 == 0`, `w[i] = w[i-4] ^ SubWord(RotWord(w[i-1])) ^ Rcon(i/4)` in the FIPS 197 schedule |
| Aes.ExpandCopy | src/GC/aes.cpp:284-292 | for the other `i >= 4`, `w[i] = w[i-4] ^ w[i-1]` |
| Aes.TempRot | src/GC/aes.cpp:287-289 | the source's `temp` is the FIPS 197 `temp` |
| Aes.MemoAdd | src/GC/aes.cpp:352 | remembering a correct round constant keeps the memo correct |
| Aes.Aes128.constructor | src/GC/aes.cpp:8-11 | a 128-bit key is required; the object holds the 11 round keys of its FIPS 197 key expansion |
| Aes.Aes128.Rcon | src/GC/aes.cpp:341-354 | the result is `xtime` applied `n - 1` times to 1, zero-extended; for `n >= 1`, which covers the 1 to 10 the key schedule passes, it is `Rcon[n]`; it is memoised, so a repeated call returns the same value |
| Aes.Aes128.KeySchedule | src/GC/aes.cpp:274-302 | `roundKeys` are the `Nr + 1 = 11` round keys laid out from the 44-word FIPS 197 key expansion |
| Aes.Aes128.ExpandKey | src/GC/aes.cpp:278-292 | the 44 words are the FIPS 197 `KeyExpansion` of the key |
| Aes.Aes128.ScheduleTemp | src/GC/aes.cpp:285-289 | `temp` is FIPS 197's `temp` for word `i`, and `Rcon` is memoised at `i / 4` |
| Aes.Aes128.LayRoundKey | src/GC/aes.cpp:294-301 | `roundKeys[r][4i + j] = word2bytes(w[4r + 3 - i])[j]` |
| Aes.Aes128.SubBytes | src/GC/aes.cpp:72-78 | the state becomes the FIPS 197 `SubBytes` of the old state |
| Aes.Aes128.ShiftRow | src/GC/aes.cpp:80-86 | `state[row][c]` takes the old `state[row][(c + n) mod 4]`, with `c + n` in 32-bit arithmetic |
| Aes.Aes128.ShiftRows | src/GC/aes.cpp:88-92 | the state becomes the FIPS 197 `ShiftRows` of the old state |
| Aes.Aes128.MixSingleColumn | src/GC/aes.cpp:95-106 | each output is `2·a_k ^ 3·a_{k+1} ^ a_{k+2} ^ a_{k+3}`, the column product of section 5.1.3 of FIPS 197 |
| Aes.Aes128.MixColumns | src/GC/aes.cpp:108-120 | the state becomes the FIPS 197 `MixColumns` of the old state |
| Aes.Aes128.AddRoundKey | src/GC/aes.cpp:122-128 | `state[i][j] ^= key[i + 4j]` |
| Aes.Aes128.EncryptBlock | src/GC/aes.cpp:39-70 | nine full rounds and a final round without `MixColumns`; this is FIPS 197 `Cipher` on the reversed block |
| Aes.Aes128.EncryptECB | src/GC/aes.cpp:13-30 | a 128-bit input is required; the output bits are the FIPS 197 encryption of the input bytes |
| Aes.Aes128.EncryptECBAll | src/GC/aes.cpp:32-37 | each block of the vector is encrypted on its own |
| Embedding.PackStringBits | src/applications/embedding.cpp:19-24 | the packed string, read as a bitset, holds dimension `d` at bits `[16d, 16d+16)` |
| Embedding.Pack | src/applications/embedding.cpp:19-24 | `pack` yields 512 bits, with dimension `d`'s 16-bit value at bits `[16d, 16d+16)`; dimension 0 is the rightmost characters |
| Embedding.Unpack | src/applications/embedding.cpp:26-37 | `unpack` yields 32 values; value `d` is bits `[16d, 16d+16)` |
| Embedding.UnpackPack | src/applications/embedding.cpp:19-37 | round trip: `unpack(pack(e))[d] == e[d]` for every `d < 32` |
| Embedding.FlatIndexBijection | src/applications/embedding.cpp:101-106 | `sample * 16 + word` is a bijection from 32 x 16 words onto `[0, 512)`; division and remainder invert it |
| Embedding.FlattenInput | src/applications/embedding.cpp:101-106 | `flattened_input[s * 16 + w]` is word `w` of sentence `s` |
| Embedding.Add16 | src/applications/embedding.cpp:119 | a 16-bit sum wraps at `2^16` and is exact below it |
| Embedding.AddWord | src/applications/embedding.cpp:117-120 | each dimension adds the unpacked value in 16-bit arithmetic |
| Embedding.AggregateSample | src/applications/embedding.cpp:113-121 | one sentence's row is the 16-bit sum of its words' dimensions |
| Embedding.Aggregate | src/applications/embedding.cpp:110-122 | `result[s][d]` is that sum for every sentence and dimension |
| Embedding.AggregateCorrect | src/applications/embedding.cpp:135-146 | with a correct lookup, every aggregated sum equals the `uint16_t` ground truth |
| Embedding.NoWrap | src/applications/embedding.cpp:54 | elements below 4096 make the 16 sums fit 16 bits, so the ground truth is the true sum |
| Join.ShareBuffer | src/applications/join.cpp:38-49 | the source party writes the 32 bits of `pt[f][r]` at `(f*num_rows + r)*32`, rewritten 32 times with no effect; the other party writes zeros |
| Join.Share | src/applications/join.cpp:34-63 | cell `(f, r)` is the 32-bit slice at `(f*num_rows + r)*32`, which is the bits of `pt[f][r]` |
| Join.ShareValue | src/applications/join.cpp:43 | each shared integer holds its clear value modulo `2^32` |
| Join.Concatenated | src/applications/join.cpp:92-106 | common columns are `reverse(t1) ++ t2`; columns only in `t1` are `reverse(col) ++ zeros`; columns only in `t2` are `zeros ++ col` |
| Join.Concat | src/applications/join.cpp:92-106 | the three loops build `Concatenated` |
| Join.MergedColumns | src/applications/join.cpp:108-110 | every column is reordered by the one log the key column's merge records |
| Join.MergedKeysAscending | src/applications/join.cpp:89-110 | with both key columns ascending, the merged key column is ascending, so equal keys are neighbours |
| Join.Pair | src/applications/join.cpp:114-138 | `floor(n/2)` rows, one per odd `i`, each field's record being `Record` at `i` |
| Join.JoinedRecord | src/applications/join.cpp:115-135 | `joined_record` for field `f` at odd `i` |
| Join.XorBitsIsXor | src/applications/join.cpp:126-133 | the `^` of two `Integer`s, taken on the numbers they stand for, is the wire-wise exclusive or of their `w`-bit strings read back as a number |
| Join.RecordPair | src/applications/join.cpp:121-128 | when the key equals one neighbour's, a common field is kept and any other field combines the two rows |
| Join.RecordNone | src/applications/join.cpp:121-135 | when the key equals neither neighbour's, the record is zero |
| Join.JoinScs | src/applications/join.cpp:88-141 | `\|t1\| + \|t2\| - nc` columns of `n/2` records from the merged concatenation |
| Join.IndexKeys | src/applications/join.cpp:144-148 | the index maps each key of `t2` to its row; it fails iff some key repeats |
| Join.MatchesMembers | src/applications/join.cpp:151-152 | a `t1` row is output iff its key occurs in `t2` |
| Join.MatchesIncreasing | src/applications/join.cpp:151-162 | output rows keep `t1`'s order |
| Join.JoinCleartext | src/applications/join.cpp:143-165 | a repeated `t2` key fails; otherwise the result is `ClearJoined`: `t1` fields, then `t2` fields from `nc` on |
| Join.PushRow | src/applications/join.cpp:154-160 | a matching row appends its value to every output column |
| Join.CheckEq | src/applications/join.cpp:167-175 | passes iff the tables are equal; otherwise it reports the first difference in column count, column length or entry |
| Text.BitsetOfBinary | src/gen_flute_lut.cpp:32-33 | the `w`-character binary printout of `v`, read back as a bitset, is the low `w` bits of `v` |
| Text.BinaryOfBitset | src/applications/embedding.cpp:22-23 | a binary string is the printout of the value it denotes |
| Text.CountOnesBinary | src/gen_flute_lut.cpp:38 | the number of `'1'` characters is the popcount of the low `w` bits |
| Text.DecimalRoundTrip | src/gen_flute_lut.cpp:43 | decimal printing loses nothing |
| FluteLut.NamesCount | src/gen_flute_lut.cpp:13-15 | a list of `n` names holds exactly `n` signals |
| FluteLut.NamesPrefix | src/gen_flute_lut.cpp:13-21 | the names come in index order |
| FluteLut.GenHeader | src/gen_flute_lut.cpp:9-25 | the statistics, then `input_bits` `addr[k]` names, then `output_bits` `dout[k]` names, then the constants |
| FluteLut.OutputRecordsSpec | src/gen_flute_lut.cpp:40-45 | one record per `'1'` output character, in increasing position |
| FluteLut.ItemRecordsSound | src/gen_flute_lut.cpp:31-45 | each record of entry `i` has the popcount of `i`, the input string of `i`, and names a set output bit of `lut[i]` |
| FluteLut.ItemRecordsComplete | src/gen_flute_lut.cpp:31-45 | every set output bit of `lut[i]` has its record |
| FluteLut.LutRecordsCount | src/gen_flute_lut.cpp:42 | the counter `c` is the total number of set output bits |
| FluteLut.DumpRecords | src/gen_flute_lut.cpp:31-46 | the body is the rendered records of all entries, and `c` is their count |
| FluteLut.DumpItem | src/gen_flute_lut.cpp:32-45 | one entry appends its records and counts them |
| FluteLut.DumpOutputs | src/gen_flute_lut.cpp:40-45 | the inner loop appends one record per `'1'` |
| FluteLut.AppendNames | src/gen_flute_lut.cpp:50-52 | appends ` addr[0]` to ` addr[n-1]` |
| FluteLut.DumpLut | src/gen_flute_lut.cpp:27-54 | requires `2^input_bits` entries, each `< 2^output_bits`; the result is the header, `LUT {input_bits} {c}`, the input names and the body ended by a newline |
| FluteLut.CheckArgs | src/gen_flute_lut.cpp:64-66 | passes iff `lut_type` is in `[0, NumLUTTypes)` and both widths are positive; otherwise it fails with the first failing check's message |
| LutTypes.LutTypeToString | src/LUT_utils.h:15-26 | each valid type maps to its own name; every other value, `NumLUTTypes` included, maps to `"Invalid"` |
| LutTypes.NamesDistinct | src/LUT_utils.h:6-26 | the four valid types have pairwise distinct names, none of them `"Invalid"` |
| DpfCmp.GetPool | test/test_dpf_cmp.cpp:14-20 | `pool[i]` is `Integer(bitlength, i)` |
| DpfCmp.PoolValue | test/test_dpf_cmp.cpp:14-20 | `pool[i]` has value `i` when `size <= 2^bitlength` |
| DpfCmp.OneHot | test/test_dpf_cmp.cpp:22-28 | exactly `size` bits, bit `j` set iff `idx == pool[j]` |
| DpfCmp.OneHotOfPool | test/test_dpf_cmp.cpp:52-62 | against the standard pool, bit `j` is set iff `idx` has value `j` |
| DpfCmp.MarksOnes | test/test_dpf_cmp.cpp:22-28 | an index `< size` sets exactly one bit; a larger one sets none |

## Left out

- Networking is left out: `NetIO` and socket traffic, `barrier`, `io->send_data`/`recv_data`, and the key exchange of `fable_prepare`. Buffers one party sends appear as inputs of the other party's model.
- Foreign engines and the values they produce become inputs or hypotheses:
  - the BatchPIR client and server and SEAL;
  - the construction of `cuckoo_map`/`inv_cuckoo_map`;
  - `decode_responses`, `index_masks`/`entry_masks`;
  - LowMC and its hashing;
  - the silent-OT correlation of src/OT/silent_ot.cpp.
- Lookup.ConvertShares: the model gives ALICE's shares the widths of BOB's slices. `LookupShares.Dims` has a single index width and a single entry width, so `Lookup.ConvertShares` and `Lookup.FableLookup` assume two equations between foreign BatchPIR constants: `DatabaseConstants::InputLength == LUT_INPUT_SIZE + 1` and `datablock_size - DatabaseConstants::InputLength == LUT_OUTPUT_SIZE`. In the source, ALICE's index share has `LUT_INPUT_SIZE + 1` bits and ALICE's entry share `LUT_OUTPUT_SIZE` bits (src/GC/lookup.cpp:247-248, 323-334). BOB's shares are slices of `InputLength` and `datablock_size - InputLength` bits (src/GC/lookup.cpp:349-350). The XOR at src/GC/lookup.cpp:357-358 combines them. The constants are defined outside the files modelled here, and nothing in those files makes them agree. What emp's `^` does with operands of different widths is not modelled.
- `LookupCorrect` assumes a cuckoo placement and a successful retrieval. `SplutCorrect` assumes the OT masks agree at BOB's choice.
- `prot_exec->feed` is modelled as passing on the source party's bits. In the clear-key sort the fed bits are BOB's own decisions, or a `peer` parameter at ALICE. `reveal` is left out.
- Garbling, secrecy and obliviousness are not modelled: secret values are clear values.
- emp's signed `Integer` comparison is modelled as comparison of integers. The `in[i].resize(bitlength + 1)` of `deduplicate` is a value-preserving widening.
- OpenMP parallel loops of src/OT/splut.cpp run sequentially.
- The chunk size of src/OT/splut.cpp:47 is computed from a memory budget parameter. The `sysconf` memory size and the floating-point factor are left out.
- The commented-out `c_range` at src/OT/splut.cpp:63 is not modelled. Items after the last whole chunk keep their initial share, which is `Splut.Leftover`.
- Timing and byte counters (`start_record`, `end_record`, src/utils/io_utils.cpp, src/GC/io_utils.cpp) are left out, as are clocks.
- Randomness is left out:
  - `rand()` table generation in the embedding and join drivers;
  - `prng.get` in SPLUT, whose words are a parameter.
- Floating-point code is left out: `ftoi`, `itof`, `get_lut`, and src/applications/embedding-baseline.py.
- Drivers are left out: src/batchlut.cpp, src/bench_fable.cpp, src/bench_splut.cpp, the `main` functions of tests and applications apart from the argument checks of src/gen_flute_lut.cpp, `ArgMapping`, and the `bench_join`/`bench_embedding` setup.
- The header files hold declarations only and are not modelled.
- src/applications/join.cpp:110 passes 7 arguments to the 8-parameter `bitonic_merge` of src/GC/sort.cpp:21. It is modelled as the 8-parameter call, because the `party` argument does not affect the result.
- Join.JoinScs: the agreement of `join_scs` with `join_cleartext` is not proved. The model proves the layout, the ascending merge and the per-record pairing rule; the pairing rule is `RecordPair` and `RecordNone`.
- Aes.Aes128.Rcon: the source promises nothing for `n == 0`. The loop at src/GC/aes.cpp:347 compares a signed `int i` with the unsigned `n - 1`, which is `2^32 - 1`, so `i++` overflows before the loop can end, and signed overflow is undefined behaviour in C++. The key schedule never passes 0: src/GC/aes.cpp:288 passes 1 to 10. For that case the model chooses `2^32 - 1` steps, which is `RconSteps(0)`.
- Embedding.NoWrap: the bound `< 4096` on embedding elements is a hypothesis. The `rand() % 4096` that produces the elements is left out.
- Join.CheckEq: `utils::check` aborting the program is modelled as returning a `Differ` verdict that names the first mismatch.
- Join.JoinCleartext: `utils::check` aborting on a repeated key is modelled as returning a `Repeated` result that carries the key.
- FluteLut.CheckArgs: the aborting `utils::check` calls are modelled as a `Fail` outcome with their message.
- FluteLut.DumpLut: the `assert`s on the table size and the entry range are preconditions. The file output of `main` is left out.
