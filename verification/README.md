# Verified models of the pipeline's algorithms

This project models the algorithms inside the Python tooling of the repository and proves
their central properties with Dafny. Every file is one module. Numbers are exact: integers
are unbounded and floating-point values are reals. Code that fills tables, dictionaries or
objects step by step is a method or a class proved against a specification; the properties
of the specification are lemmas.

| files | what they model |
|---|---|
| `Wrappers`, `Reals` | an optional value; signs and order of real products |
| `Powers`, `Kraft`, `Costs`, `GreedyMerge`, `HuffmanTree`, `HuffmanCode`, `HuffmanText` | the Huffman coder of `scripts/lambda_codebook.py`: optimality over all prefix codes, Kraft sum, byte packing, decodability, the codebook of a corpus |
| `Hadamard`, `Butterflies`, `FpqRoundtrip` | the Walsh-Hadamard butterflies of `scripts/fpq_legal_bench.py` and `scripts/gen_bqfp_family.py`, and the quantisation round trip built on them |
| `E8Snap`, `E8Distance`, `E8Nearest`, `E8Lattice` | the lattice rounding of `scripts/gen_bqfp_family.py` |
| `EditDistance` | word error rate: the table in place, minimality over edit scripts, the metric laws |
| `TeacherSpans`, `ConsensusVote`, `BioTags` | token predictions to spans, majority vote of the teachers, BIO labels |
| `EntityClusters`, `CooccurrenceGraph` | co-occurrence counts and union-find with path halving |
| `BitPacking`, `VecfFile` | the bit packer and unpacker, and the whole embedding file they are part of |
| `RunLedger`, `RoutingAdjust`, `EscalationChain` | the store of recorded runs, the weights derived from it, and the escalation chain derived from these |
| `ConflictDetection`, `ConflictClusters`, `ConvergenceLoop` | conflicts between claims, their clusters, hot zones, and the convergence loop |
| `HypothesisDedup` | clustering of hypotheses by shared entities |
| `PerplexityWindows`, `RerankLabels` | sliding windows of the perplexity evaluation; the labels of the two rerankers |

## Where the code and its descriptions differ

The model follows the code.

- `scripts/conflict_cluster.py:122-133` reads the assumptions of a claim from the rows of `detect_conflicts`, whose
  query (`scripts/claim_graph.py:265-270`) does not select that column. Every cluster therefore has fragility 0, no
  cluster is ever hot, and `run_convergence` reports convergence without an iteration for every set of claims
  (`ConflictClusters.NeverHot`, `ConflictClusters.ConvergeOnClaims`). The laws of the loop are proved for arbitrary
  clusters, so that they hold once the column is selected; `ConflictClusters.FragileIff` says what is flagged then.
- `e8_snap` (`scripts/gen_bqfp_family.py:67-68`) says that it flips the coordinate with the largest deviation and
  selects the one with the smallest. `E8Nearest.NearestIff` gives the exact condition under which the result is a nearest
  vector of even sum, and `E8Nearest.NotNearestExample` a vector for which it is not. Its docstring promises half-integers,
  which it never tries: `E8Lattice.LatticeNearestIff` says when the result is nearest among these as well.
- `huffman_codes` is optimal exactly if the number of symbols is not one: a single symbol gets the codeword `0`, which
  is longer than the empty codeword (`HuffmanCode.SingleNotOptimal`).
- `cmd_teach` drops an entity that is still open when a special token with offsets (0, 0) arrives
  (`scripts/collapse_consensus.py:104-106`). When the tokenizer ends a text with a special token, this loses every entity
  that reaches the last real token, and the code after the loop never runs (`TeacherSpans.LastEntityLost`).
- `load_consensus` calls its mapping of spans to tokens an approximation. `BioTags.RangeExactIff` says when it is exact: a
  span that starts inside a word, as after a bracket, loses that word (`BioTags.CutWordExample`).
- `cmd_merge` lists the texts of the first teacher only (`scripts/collapse_consensus.py:146-150`). A text for which that
  teacher has no file is dropped however many others agree (`ConsensusVote.MajorityDroppedIff`,
  `ConsensusVote.MajorityDroppedExample`).
- The comment on the vote threshold (`scripts/collapse_consensus.py:144`) promises more votes than the code asks for
  when the number of teachers is odd. The code asks for a strict majority of all configured teachers
  (`ConsensusVote.ThresholdIsMajority`).
- The promotion rule of `rebuild_escalation_chain` (`scripts/routing_adjust.py:145-146`) can never apply to a history of
  recorded runs, because a transition between different families never has a success
  (`EscalationChain.LearnedFromHistory`). For the same reason the learned multiplier between different families is 0.7
  wherever the joined name is not shared (`RoutingAdjust.LearnedMultipliers`, `RoutingAdjust.SharedMultiplierExample`).
  The docstring's example 0.65 does not occur, and neither bound of the clamp is ever reached (`RoutingAdjust.ListedRange`).
- `fragment_stats.exit_rate` stays at its default 0 when the first run of a family exits (`RunLedger.ExitRateExact`,
  `RunLedger.ExitRateExample`).
- `get_top_paths` calls `paths.score` confidence over iterations, but the upsert divides by the mean number of iterations
  before the run. `RunLedger.ScoreRightIff` gives the exact condition under which the score is right.
- Statistics are looked up under the joined names of two families, so names that contain the joining arrow can share an
  entry (`RoutingAdjust.SameKeyIff`, `EscalationChain.SharedNameExample`).
- `cosine_rerank` (`scripts/hybrid_search.py:157`) labels a score by its position among all candidates, although the
  scores belong to the known ones. `RerankLabels.LabelsRightIff` gives the exact condition under which the labels are right.
- The sliding windows cover the text only if `stride <= max_length` or the text fits one window
  (`PerplexityWindows.Windows`, `PerplexityWindows.GapsExample`); otherwise the perplexity divides by tokens that were never scored.
- A file of one-bit codes can be written but not loaded, because the largest code is 0 and the loader divides by it
  (`VecfFile.LoadInvertsEncode`, `VecfFile.OneBitExample`). The file format documents 3 or 4 bits.

## Model

| member | source | states |
|---|---|---|
| `GreedyMerge.MergeLengths` | scripts/lambda_codebook.py:66-69 | from any lengths that satisfy Kraft's inequality, the two lightest weights can be merged into one item so that the inequality still holds and the cost falls by at least their sum |
| `GreedyMerge.MergeLowerBound` | scripts/lambda_codebook.py:66-69 | a lower bound on all feasible length assignments after a greedy merge, plus the merged weight, is a lower bound before the merge |
| `Kraft.KraftInequality` | scripts/lambda_codebook.py:72-77 | every prefix-free list of codewords, not only Huffman's, satisfies Kraft's inequality |
| `HuffmanTree.HeapPop` | scripts/lambda_codebook.py:67-68 | popping removes exactly one node, and none is lighter; which of several lightest is left open |
| `HuffmanTree.InitialHeap` | scripts/lambda_codebook.py:64 | the heap starts with one leaf for each positive frequency |
| `HuffmanTree.MergeLightest` | scripts/lambda_codebook.py:66-69 | one turn of the loop keeps all leaves, shrinks the heap by one and carries lower bounds on the cost back |
| `HuffmanTree.BuildHuffmanTree` | scripts/lambda_codebook.py:63-70 | for every tie-break, the leaves are the positive entries, weights add up, and the cost of the tree bounds every feasible length assignment from below; no positive entry gives the leaf NUL |
| `HuffmanTree.CodeTable.ExtractCodes` | scripts/lambda_codebook.py:72-77 | the recursion adds to the dictionary exactly the path of every leaf below the node |
| `HuffmanCode.ExtractedPrefixFree` | scripts/lambda_codebook.py:72-77 | no extracted codeword is a prefix of another |
| `HuffmanCode.ExtractedLength` | scripts/lambda_codebook.py:72-77 | the weighted code length of a tree is the sum of its inner weights |
| `HuffmanCode.ExtractedKraft` | scripts/lambda_codebook.py:72-77 | the codewords below a node fill exactly the share of the Kraft sum of its path |
| `HuffmanCode.BoundForCodes` | scripts/lambda_codebook.py:63-83 | a bound on feasible lengths bounds the total bits of every prefix code of the symbols |
| `HuffmanCode.OptimalTree` | scripts/lambda_codebook.py:63-83 | a tree whose cost is a lower bound yields a code that no prefix code beats |
| `HuffmanCode.SingleNotOptimal` | scripts/lambda_codebook.py:74 | with one symbol, the code is beaten by the empty codeword only |
| `HuffmanCode.HuffmanCodes` | scripts/lambda_codebook.py:79-83 | for every frequency table: exactly the positive symbols get codewords, prefix-free, optimal over all prefix codes if and only if there is not exactly one symbol, with Kraft sum 1 from two symbols on |
| `HuffmanText.CompressedBitsExact` | scripts/lambda_codebook.py:96-97 | the predicted number of bits is the length of the encoded bit string |
| `HuffmanText.CompressedBitsSplit` | scripts/lambda_codebook.py:96-97 | for any text, the predicted size is the length of the encoding of its encodable symbols, and eight bits for every other symbol |
| `HuffmanText.Join` | scripts/lambda_codebook.py:87 | codewords are concatenated, unknown symbols through the unknown marker; it fails exactly if some symbol has neither |
| `HuffmanText.PackBits` | scripts/lambda_codebook.py:91-94 | the bytes spell the padded bit string, most significant bit first |
| `HuffmanText.HuffmanEncode` | scripts/lambda_codebook.py:85-94 | it succeeds exactly on encodable texts, with ceiling(bits / 8) bytes that are the codewords and zero bits |
| `HuffmanText.WalkFollowsCode` | scripts/lambda_codebook.py:72-77 | walking the tree along a codeword arrives at its symbol and leaves the rest of the bits |
| `HuffmanText.DecodeInvertsBits` | scripts/lambda_codebook.py:85-94 | decoding n symbols recovers any encodable text of length n, whatever bits follow |
| `HuffmanText.DecodeInvertsEncode` | scripts/lambda_codebook.py:85-94 | a text over the alphabet is recovered from its padded bytes and its length |
| `HuffmanText.CharFreq` | scripts/lambda_codebook.py:150-154 | the counter holds each occurring symbol once, and every code encodes the corpus in as many bits as the counts say |
| `HuffmanText.BuildCodebook` | scripts/lambda_codebook.py:79-83 | counting then coding: no prefix code for the corpus compresses it into fewer bits |
| `Hadamard.WhtIsMatrixProduct` | scripts/fpq_legal_bench.py:94-104 | every output coordinate is the product of a row of the recursively defined Hadamard matrix with the input |
| `Hadamard.WhtLinear` | scripts/fpq_legal_bench.py:94-104 | the transform of a sum or difference is the sum or difference of the transforms |
| `Hadamard.WhtTwice` | scripts/fpq_legal_bench.py:94-104 | for every power-of-two length n, transforming twice multiplies by n |
| `Hadamard.NormalisedSelfInverse` | scripts/gen_bqfp_family.py:47-58 | divided by a root of the length, the transform is its own inverse |
| `Hadamard.WhtEnergy` | scripts/fpq_legal_bench.py:94-104 | the transform multiplies the sum of squares by the length |
| `Butterflies.SweepDoubles` | scripts/gen_bqfp_family.py:51-56 | one pass of butterflies turns transforms of chunks of h values into transforms of chunks of 2h |
| `Butterflies.SweepChunks` | scripts/gen_bqfp_family.py:52-55 | the two inner loops, chunk by chunk in place, perform one pass |
| `Butterflies.Fwht` | scripts/gen_bqfp_family.py:47-58 | the in-place loops compute the normalised transform, applying it again restores the array, and the energy is unchanged |
| `Butterflies.SweepColumn` | scripts/fpq_legal_bench.py:99-102 | one offset, taken in every chunk of every row, combines exactly the pairs at that offset |
| `Butterflies.SweepColumns` | scripts/fpq_legal_bench.py:98-102 | the column order of the batched loop performs the same pass as the chunk order |
| `Butterflies.FwhtBatch` | scripts/fpq_legal_bench.py:94-104 | the batched loops leave the transform of every row of the buffer |
| `FpqRoundtrip.ReconstructCoefficients` | scripts/fpq_legal_bench.py:124-139 | undoing transform, scale and signs on unquantised coefficients restores the padded tensor |
| `FpqRoundtrip.ErrorIsScaled` | scripts/fpq_legal_bench.py:124-139 | for any quantised coefficients, 256 times the squared error of the padded reconstruction is their squared error in the transform domain |
| `FpqRoundtrip.TruncationError` | scripts/fpq_legal_bench.py:139 | cutting off the padding never raises the squared error |
| `FpqRoundtrip.FlipInPlace` | scripts/fpq_legal_bench.py:124-126 | the buffer is multiplied by the signs in place |
| `FpqRoundtrip.PadToBlocks` | scripts/fpq_legal_bench.py:119-122 | the buffer is the tensor followed by zeros up to whole blocks |
| `FpqRoundtrip.CoefficientError` | scripts/fpq_legal_bench.py:130-135 | a quantiser that is never off by more than e changes every coefficient by at most e times the scale of its block, block after block |
| `FpqRoundtrip.RoundtripSpec` | scripts/fpq_legal_bench.py:119-139 | what padding, signs, transform, quantiser and the way back amount to, and the error bound, as one function |
| `FpqRoundtrip.Roundtrip` | scripts/fpq_legal_bench.py:107-142 | for any quantiser and scales: small tensors pass unchanged, the error is at most the transform-domain error over 256, a quantiser that is never off by more than e leaves a squared error of at most the sum of the squares of e times the scale of a block, and an identity quantiser returns the weights exactly |
| `E8Snap.Snap` | scripts/gen_bqfp_family.py:61-70 | the result has even sum and stays within 1 of the input; it is the rounded vector, or that with the first least deviating coordinate moved to its other side |
| `E8Snap.SnapIdempotent` | scripts/gen_bqfp_family.py:61-70 | snapping an even-sum integer vector changes nothing |
| `E8Nearest.MovedNearestIff` | scripts/gen_bqfp_family.py:66-69 | moving a coordinate yields a nearest even-sum vector if and only if no coordinate deviates more |
| `E8Nearest.NearestIff` | scripts/gen_bqfp_family.py:61-70 | the snapped vector is a nearest even-sum vector if and only if rounding had an even sum or all coordinates deviate equally |
| `E8Nearest.NotNearestExample` | scripts/gen_bqfp_family.py:67-68 | (0.1, 1.4) is snapped to (1, 1), which is not nearest |
| `E8Lattice.HalvesCostAtLeast` | scripts/gen_bqfp_family.py:61-70 | no half-integer vector of even sum is closer than rounding to half-integers and the cost of its parity |
| `E8Lattice.HalvesAttain` | scripts/gen_bqfp_family.py:61-70 | with an even number of coordinates, some half-integer vector of even sum attains that |
| `E8Lattice.LatticeNearestIff` | scripts/gen_bqfp_family.py:61-70 | the snapped vector is nearest among integer and half-integer vectors of even sum if and only if it is nearest among integers, and the number of coordinates is odd or the deviations with the parity costs add up to at most a quarter of it |
| `E8Lattice.HalfIntegerMissed` | scripts/gen_bqfp_family.py:61-70 | (1/2, 1/2, 1/2, 1/2) is in the lattice, but is snapped to zero |
| `EditDistance.Attained` | scripts/demo.py:372-383 | some edit script turns the hypothesis into the reference at the cost of the recurrence |
| `EditDistance.NoneCheaper` | scripts/demo.py:372-383 | no edit script is cheaper |
| `EditDistance.ScriptDetermines` | scripts/demo.py:378-383 | an edit script turns a hypothesis into at most one reference |
| `EditDistance.ZeroIffEqual` | scripts/demo.py:378-383 | the distance is 0 exactly for equal word sequences |
| `EditDistance.Symmetric` | scripts/demo.py:378-383 | the distance is symmetric |
| `EditDistance.Triangle` | scripts/demo.py:378-383 | the distance satisfies the triangle inequality |
| `EditDistance.Bounds` | scripts/demo.py:378-385 | the distance lies between the difference of the lengths and the larger length |
| `EditDistance.FillTable` | scripts/demo.py:373-383 | every cell, filled in place, holds the distance of the two prefixes |
| `EditDistance.ComputeWer` | scripts/demo.py:367-385 | the rate is the distance, which is the least number of edits, over the reference length; it is 0 exactly for equal texts, with its bounds and the empty-reference cases |
| `TeacherSpans.TeachSpans` | scripts/collapse_consensus.py:99-126 | the state machine emits, in order, the spans of exactly the entities opened by a B- token whose run of I- tokens is not cut off by a special token |
| `TeacherSpans.LastEntityLost` | scripts/collapse_consensus.py:104-106 | a special token at the end loses exactly the entity that reaches the last real token |
| `TeacherSpans.NothingLost` | scripts/collapse_consensus.py:124-126 | if no entity reaches the last token, a special token at the end changes nothing |
| `TeacherSpans.LostEntityExample` | scripts/collapse_consensus.py:104-126 | the entity of two tokens is reported without, and lost with, a special token after them |
| `TeacherSpans.TeacherOrdered` | scripts/collapse_consensus.py:99-126 | with monotone offsets, the spans of one teacher are in text order and disjoint |
| `ConsensusVote.CountVotes` | scripts/collapse_consensus.py:177-181 | the dictionary maps exactly the spans with votes to the number of teachers that have them |
| `ConsensusVote.VotesAreVoters` | scripts/collapse_consensus.py:136-181 | the votes counted for a span are the number of teachers whose file lists it |
| `ConsensusVote.ThresholdIsMajority` | scripts/collapse_consensus.py:144 | reaching the threshold is a strict majority; it is what the comment announces if and only if the number of teachers is even |
| `ConsensusVote.Agreed` | scripts/collapse_consensus.py:183-189 | the list holds the spans at or above the threshold once each, sorted by start |
| `ConsensusVote.Merge` | scripts/collapse_consensus.py:146-192 | a text has a record exactly if the first teacher has a file for it with a text; the record has that text and exactly the spans that more than half of all configured teachers list, once each and sorted by start |
| `ConsensusVote.MergeAll` | scripts/collapse_consensus.py:141-194 | for any directories, exactly the texts of the first one that are not empty get a record, each with its majority spans; it fails exactly without a directory or a file in the first one |
| `ConsensusVote.MajorityDroppedIff` | scripts/collapse_consensus.py:146-150 | a text with a majority span is dropped if and only if the first teacher has no file for it |
| `ConsensusVote.MajorityDroppedExample` | scripts/collapse_consensus.py:146-150 | two of three teachers agree on a span, and the text is dropped because the first one has no file |
| `ConsensusVote.SharedVoter` | scripts/collapse_consensus.py:144 | two spans with more votes together than there are voters share a voter |
| `ConsensusVote.MajoritiesDisjoint` | scripts/collapse_consensus.py:143-189 | majority spans never overlap if no teacher's own spans do, even when files are missing |
| `ConsensusVote.MergeLayered` | scripts/collapse_consensus.py:183-189 | the merged list is sorted, proper and pairwise disjoint |
| `BioTags.WordsMonotone` | scripts/collapse_train.py:295-296 | word counts of prefixes grow with the prefix and stay below the number of words |
| `BioTags.WordsAreStarts` | scripts/collapse_train.py:295-296 | splitting a prefix counts the words that start in it |
| `BioTags.RangeExactIff` | scripts/collapse_train.py:294-297 | the token range of a span holds exactly the words that the span touches if and only if the span does not start strictly inside a word |
| `BioTags.CutWordLost` | scripts/collapse_train.py:294-297 | the word that a span starts inside is touched, but stands just before its range |
| `BioTags.CutWordExample` | scripts/collapse_train.py:294-297 | in "(Jo Li)" the span of "Jo" gets an empty range |
| `BioTags.PaintInPlace` | scripts/collapse_train.py:297-298 | the inner loop writes B and then I over the range and nothing else |
| `BioTags.TagSpans` | scripts/collapse_train.py:292-298 | the labels are all token ranges painted in order |
| `BioTags.RangesTiled` | scripts/collapse_train.py:293-297 | sorted disjoint character spans have ordered, disjoint token ranges within the text |
| `BioTags.LabelledIffCovered` | scripts/collapse_train.py:293-298 | a token is labelled exactly if some range covers it |
| `BioTags.DecodeInvertsPaint` | scripts/collapse_train.py:292-298 | the labels are well-formed BIO, and reading them back returns exactly the non-empty ranges |
| `BioTags.Label` | scripts/collapse_train.py:283-298 | from the predictions of any teachers to labels: a text has labels exactly if it is not empty and the first teacher has predictions for it, and reading them back yields the non-empty token ranges of exactly the majority spans, which are disjoint |
| `EntityClusters.HalvingKeepsForest` | scripts/entity_cluster.py:184-185 | a path-halving step keeps the forest and every root, and moves to a node of lower level with the same root |
| `EntityClusters.UnionKeepsForest` | scripts/entity_cluster.py:188-191 | hanging one root under another keeps a forest and renames exactly that root |
| `EntityClusters.UnionFind.Find` | scripts/entity_cluster.py:182-186 | find terminates, returns the root, changes no node's root, and rewrites the links exactly by path halving |
| `EntityClusters.UnionFind.Union` | scripts/entity_cluster.py:188-191 | the nodes of the first tree get the root of the second, all others keep theirs |
| `EntityClusters.SameRootIffConnected` | scripts/entity_cluster.py:193-199 | two nodes have the same root if and only if an edge path joins them |
| `EntityClusters.LinkRepresents` | scripts/entity_cluster.py:193-199 | handling one more edge keeps the roots in agreement with the paths over the edges so far |
| `EntityClusters.AssignIds` | scripts/entity_cluster.py:201-211 | ids agree exactly where roots agree, and are 0 to k-1 without a gap |
| `EntityClusters.ConnectedComponents` | scripts/entity_cluster.py:178-211 | exactly the end points of edges get ids; two ids are equal if and only if a path joins the nodes; the ids are exactly 0 to k-1 |
| `CooccurrenceGraph.CountPairs` | scripts/entity_cluster.py:163-171 | the windows of one file raise the count of two different entities by the number of windows that hold both |
| `CooccurrenceGraph.WeightIsTogether` | scripts/entity_cluster.py:169-171 | the weight of a pair is the number of windows that hold both entities |
| `CooccurrenceGraph.WeightCountsPlaces` | scripts/entity_cluster.py:163-171 | summed over all files, the weight of two entities is the number of places, file and window, that hold both |
| `CooccurrenceGraph.CountDocs` | scripts/entity_cluster.py:161-167 | exactly the occurring entities are listed, each with exactly the files in which it occurs |
| `CooccurrenceGraph.BuildGraph` | scripts/entity_cluster.py:150-175 | the graph has exactly the pairs of different entities that occur together at least the minimum number of times in all files, with that number; the document sets are not pruned |
| `CooccurrenceGraph.ClusterCorpus` | scripts/entity_cluster.py:150-211 | two entities share a cluster if and only if a chain of co-occurrences that are frequent over all files joins them |
| `BitPacking.OrAppends` | scripts/hybrid_search.py:76 | or-ing a shifted byte into the buffer appends its bits above those held |
| `BitPacking.MaskTakes` | scripts/hybrid_search.py:77 | masking with 2^n - 1 takes the lowest n bits |
| `BitPacking.ShiftDrops` | scripts/hybrid_search.py:77 | shifting right by n drops the lowest n bits |
| `BitPacking.OrBitwise` | scripts/hybrid_search.py:76 | or acts bit by bit on numbers of one width |
| `BitPacking.AndBitwise` | scripts/hybrid_search.py:77 | and acts bit by bit on numbers of one width |
| `BitPacking.CodeBitsInjective` | scripts/hybrid_search.py:70-78 | a bit stream determines the codes it starts with |
| `BitPacking.FieldOfStream` | scripts/hybrid_search.py:69-77 | field number k of a stream that starts with the fields of some codes holds code number k plus 2^(bits - 1) - 1 |
| `BitPacking.ByteThree` | scripts/hybrid_search.py:69-77 | the byte 3 holds the three-bit code 0 and no other |
| `BitPacking.UnpackCodes` | scripts/hybrid_search.py:68-78 | for a positive width it succeeds exactly if the data hold n fields, returns the number in each field less 2^(bits - 1) - 1, and reads exactly ceiling(n * bits / 8) bytes |
| `BitPacking.PackCodes` | scripts/vecf_e8.py:113-131 | for all codes of absolute value at most 2^(bits - 1) - 1, the bytes are the fields, each the code plus that number, least significant bit first, and zero bits up to a whole byte |
| `BitPacking.UnpackInvertsPack` | scripts/moe_router.py:76-82 | unpacking a packed block returns its codes, whatever follows the block |
| `VecfFile.LittleEndianInverse` | scripts/vecf_e8.py:162 | reading back a little-endian field returns the number |
| `VecfFile.Encode` | scripts/vecf_e8.py:153-175 | the file is the header followed by every record: length, id, and per block the scale and the packed codes |
| `VecfFile.FileUnique` | scripts/hybrid_search.py:81-99 | no data can be read as two different lists of records |
| `VecfFile.LoadBlock` | scripts/hybrid_search.py:95-97 | it returns the block stored at the offset, or fails exactly if none is stored there |
| `VecfFile.LoadedCodes` | scripts/hybrid_search.py:96 | the codes of a stored block are the numbers in its fields, less the offset of their width |
| `VecfFile.LoadRecord` | scripts/hybrid_search.py:92-98 | it returns the record stored at the offset and the offset behind it, or fails exactly if none is stored there |
| `VecfFile.LoadVecf2` | scripts/hybrid_search.py:81-99 | for arbitrary data, it returns the records the data hold and fails exactly if they hold none, with the kind of error |
| `VecfFile.LoadInvertsEncode` | scripts/moe_router.py:84-98 | the loader, on a file that the encoder wrote, returns the written records and ends at the last byte, unless blocks have one-bit codes |
| `VecfFile.OneBitExample` | scripts/hybrid_search.py:90-97 | one vector of one one-bit code can be written but not loaded |
| `RunLedger.AkaiMemory.constructor` | scripts/akai_memory.py:174-183 | an empty store matches the empty history |
| `RunLedger.AkaiMemory.UpdateRoutingWeight` | scripts/akai_memory.py:298-317 | no other transition changes; for this one, successes, failures and escalations each grow by exactly what the call reports, from the row or from nothing |
| `RunLedger.CallsTallied` | scripts/akai_memory.py:298-317 | after any log of calls, a transition has a row exactly if it was reported, and the row holds its numbers of successes, escalations and calls: one more call keeps this |
| `RunLedger.AkaiMemory.InsertEscalations` | scripts/akai_memory.py:223-239 | the loop appends one row per escalation and charges each to its transition |
| `RunLedger.AkaiMemory.RecordRun` | scripts/akai_memory.py:174-294 | every table stays determined by the history extended by the run: rows, routing counts, fragment counts, running means, best confidence and score |
| `RunLedger.RunTableAt` | scripts/akai_memory.py:190-216 | row number i shows the family, the exit flag and the number of escalations of run number i |
| `RunLedger.PathRowHit` | scripts/akai_memory.py:262-284 | the upsert of a chain keeps the true means, the best confidence and the score of all its runs |
| `RunLedger.ScoreRightIff` | scripts/akai_memory.py:279-281 | after a run, the score of its chain is mean confidence over mean iterations if and only if it is the first run, the confidences add up to zero, or the run took the previous mean number of iterations |
| `RunLedger.StaleScoreExample` | scripts/akai_memory.py:279-281 | after runs of 1 and 3 iterations with confidence 1, the score is 1 instead of 1/2 |
| `RunLedger.StaleScoreReachable` | scripts/akai_memory.py:262-284 | recording the two runs of that example leaves a table that matches them |
| `RunLedger.MeanStep` | scripts/akai_memory.py:274-277 | the running update of a mean gives the mean of all values |
| `RunLedger.RowsForTransition` | scripts/akai_memory.py:224-239 | a transition has as many escalation rows as escalations in the history |
| `RunLedger.TotalsAgree` | scripts/akai_memory.py:210-235 | the escalation counts of all runs add up to the number of escalation rows |
| `RunLedger.LedgerLaw` | scripts/akai_memory.py:223-245 | after any runs, failures = escalations = escalation rows for each transition, and only a family to itself has successes |
| `RunLedger.ExitRateExact` | scripts/akai_memory.py:247-259 | the exit rate is exits over uses, except exactly after a single run that exited |
| `RunLedger.ExitRateExample` | scripts/akai_memory.py:250-257 | after one run that exits, the stored rate is 0 instead of 1 |
| `RoutingAdjust.GetRoutingAdjustments` | scripts/akai_memory.py:319-344 | every transition with an outcome has its joined name listed, and every listed name carries the rates of a transition of that name |
| `RoutingAdjust.SameKeyIff` | scripts/akai_memory.py:337 | two transitions share a joined name if and only if they are equal or one splits it at a later arrow |
| `RoutingAdjust.ArrowFreeUnambiguous` | scripts/akai_memory.py:337 | if no source name contains an arrow, no two recorded transitions share a joined name |
| `RoutingAdjust.OwnStatistics` | scripts/akai_memory.py:328-344 | a transition with a name of its own is listed exactly if it has an outcome, with its own rates |
| `RoutingAdjust.ComputeAdjustments` | scripts/routing_adjust.py:67-91 | exactly the joined names with enough runs get the clamped multiplier |
| `RoutingAdjust.UpdatesStaySane` | scripts/akai_memory.py:298-317 | no update that the store makes leaves a row with more escalations than outcomes |
| `RoutingAdjust.MultiplierRange` | scripts/routing_adjust.py:79-90 | a row whose escalations do not exceed its outcomes gives a value in [0.7, 1.3], on which the clamp does nothing |
| `RoutingAdjust.ListedRange` | scripts/routing_adjust.py:77-91 | after any recorded runs, every listed multiplier lies in [0.7, 1.3] and is the value before the clamp |
| `RoutingAdjust.LearnedMultipliers` | scripts/routing_adjust.py:67-91 | after any recorded runs, a transition with a joined name of its own has a multiplier exactly if it was charged three times: 0.7 between different families, 1.3 for a family to itself without self-escalation |
| `RoutingAdjust.SharedMultiplierExample` | scripts/routing_adjust.py:67-91 | two different families can find the multiplier 1.3 under a shared name, in a store that recorded runs leave |
| `EscalationChain.RebuildEscalationChain` | scripts/routing_adjust.py:135-180 | in whatever order families are visited, every family gets the target of the two rules |
| `EscalationChain.SkippedIff` | scripts/routing_adjust.py:152-162 | for any statistics, a target is skipped exactly if at least three runs were measured and more than four in five escalated |
| `EscalationChain.PromotedIff` | scripts/routing_adjust.py:164-178 | for any statistics, the next target is promoted exactly if both were measured at least three times and its success rate is higher by more than 0.15 |
| `EscalationChain.LearnedIsAhead` | scripts/routing_adjust.py:148-180 | a family with a target keeps one, one to three base links ahead; a terminal family stays terminal |
| `EscalationChain.LearnedAcyclic` | scripts/routing_adjust.py:148-180 | the learned chain of an acyclic base chain is acyclic |
| `EscalationChain.SameTerminalFewerHops` | scripts/routing_adjust.py:148-180 | for any statistics, escalation ends at the same family as before, in no more hops |
| `EscalationChain.LearnedFromHistory` | scripts/routing_adjust.py:152-178 | after any recorded runs, if no transition shares a joined name with one of the family, it skips one link exactly if it escalated to its target three times and that target has a target; the second rule never applies |
| `EscalationChain.SharedNameExample` | scripts/routing_adjust.py:152-162 | with an arrow in a family name, a family that never escalated skips its target |
| `EscalationChain.CrossedReachable` | scripts/routing_adjust.py:152-162 | one run with three escalations leaves the table of that example |
| `ConflictDetection.AntonymMap` | scripts/claim_graph.py:183-186 | the dictionary has exactly the mentioned predicates, each with its partner in the last pair that mentions it |
| `ConflictDetection.AntonymsSymmetric` | scripts/claim_graph.py:183-186 | if no predicate occurs in two pairs, the antonym of the antonym is the predicate |
| `ConflictDetection.AntonymPairsDisjoint` | scripts/claim_graph.py:171-181 | no predicate occurs in two of the listed pairs |
| `ConflictDetection.GroupBy` | scripts/claim_graph.py:274-278 | each group holds exactly the rows with its key, in order |
| `ConflictDetection.ScanSamePredicate` | scripts/claim_graph.py:283-306 | every pair with one subject and predicate and different objects has been reported, each once |
| `ConflictDetection.ScanAntonyms` | scripts/claim_graph.py:308-337 | every pair with antonym predicates on one subject has been reported as well, none twice |
| `ConflictDetection.DetectConflicts` | scripts/claim_graph.py:249-339 | each unordered pair in the conflict relation is reported exactly once and nothing else is; the kind is that of the first rule that applies, an antonym conflict names the predicates in order, and the strength is the lower of the two confidences |
| `ConflictDetection.ConflictDetermined` | scripts/claim_graph.py:289-337 | the two claims of a reported conflict determine its kind and its strength |
| `ConflictDetection.DocumentIsRestriction` | scripts/claim_graph.py:259-270 | the pairs of one document are exactly the global pairs inside that document |
| `ConflictClusters.SharedTypeIff` | scripts/conflict_cluster.py:73-76 | all conflicts of antonyms share a type; conflicts on predicates without a colon share one exactly if the predicates are equal |
| `ConflictClusters.UpToColonIff` | scripts/conflict_cluster.py:76 | the type is the label up to its first colon, or the whole label |
| `ConflictClusters.Summarise` | scripts/conflict_cluster.py:90-133 | one cluster: the number of its conflicts, all lenses of both sides, the summed strength over the support of all subjects, and the capped mean number of assumptions |
| `ConflictClusters.ClusterAdvanced` | scripts/conflict_cluster.py:50-153 | one cluster for each type with enough conflicts, computed from exactly the conflicts of that type, by falling pressure; together they hold each such conflict once |
| `ConflictClusters.PressureMeaning` | scripts/conflict_cluster.py:113-120 | the pressure is the sum of the strengths over the support of the subjects |
| `ConflictClusters.ClustersFit` | scripts/conflict_cluster.py:90-120 | clusters have different types and non-negative pressure, which the convergence loop relies on |
| `ConflictClusters.NeverHot` | scripts/conflict_cluster.py:122-133 | without the assumptions column, no cluster is hot for any thresholds with fragility at least 0 |
| `ConflictClusters.FragileIff` | scripts/conflict_cluster.py:122-133 | with any column set, a cluster exceeds the fragility threshold 1/2 if and only if more than 5/2 assumptions are counted per conflict |
| `ConflictClusters.ConvergeOnClaims` | scripts/convergence_engine.py:141-165 | for every table of claims, the run reports convergence with no iteration |
| `ConvergenceLoop.HotZonesKeep` | scripts/conflict_cluster.py:156-198 | the filter keeps exactly the hot clusters, and their types stay different |
| `ConvergenceLoop.FlagHotZones` | scripts/conflict_cluster.py:173-198 | the loop computes the filter |
| `ConvergenceLoop.DecayMeaning` | scripts/convergence_engine.py:223-224 | a decay of at least 0.01 means that the pressure fell by at least 0.01 * max(pressure, 1) |
| `ConvergenceLoop.CountResolved` | scripts/convergence_engine.py:227-234 | the count is the number of hot types that are no longer hot |
| `ConvergenceLoop.TypesConserved` | scripts/convergence_engine.py:227-234 | after = before - resolved + newly hot |
| `ConvergenceLoop.Record` | scripts/convergence_engine.py:223-278 | an entry holds the pressures, the decay, the resolved and the remaining zones of its step |
| `ConvergenceLoop.PressureFalls` | scripts/convergence_engine.py:169-293 | before the n-th iteration the pressure has fallen by at least 0.01 n, and below 0.99^n of the start |
| `ConvergenceLoop.LaterIsLower` | scripts/convergence_engine.py:223-278 | every iteration that another one follows leaves zones, and the pressure before it exceeds that before any later one by 0.01 for each iteration between |
| `ConvergenceLoop.RunConvergence` | scripts/convergence_engine.py:141-293 | for arbitrary observations: the history traces the hot zones, zone types are conserved over the whole run, at most 100 times the initial pressure iterations are continued, and the reasons to stop are exactly the three of the code |
| `HypothesisDedup.Place` | scripts/hypothesis_discovery.py:918-931 | a hypothesis joins the first cluster whose leader it overlaps by more than half, or opens a new one |
| `HypothesisDedup.Strongest` | scripts/hypothesis_discovery.py:937 | the first member of greatest strength is kept |
| `HypothesisDedup.Deduplicate` | scripts/hypothesis_discovery.py:903-940 | one strongest member of each first-fit cluster of the input is kept, in the order of the clusters |
| `HypothesisDedup.RunPartitions` | scripts/hypothesis_discovery.py:910-931 | the clusters of any run of first fit partition the input, leaders do not overlap each other, and every other member overlaps its leader |
| `HypothesisDedup.RunUnique` | scripts/hypothesis_discovery.py:912-931 | the input determines the clusters |
| `HypothesisDedup.KeptUnique` | scripts/hypothesis_discovery.py:934-938 | the input determines the kept hypotheses, the first of several strongest ones included |
| `HypothesisDedup.MembersNearLeader` | scripts/hypothesis_discovery.py:922-928 | every later member of a cluster shares more than half of all their entities with its leader |
| `HypothesisDedup.MembersShareEntity` | scripts/hypothesis_discovery.py:923-928 | any two members of a cluster share an entity |
| `HypothesisDedup.LeadersApart` | scripts/hypothesis_discovery.py:923-931 | non-empty leaders overlap by at most half |
| `PerplexityWindows.TileLength` | scripts/fpq_legal_bench.py:247 | ranges that tile the text have the length of the text |
| `PerplexityWindows.Windows` | scripts/fpq_legal_bench.py:225-248 | the scored ranges are those of the windows, in order without overlap, and they tile the text if and only if the stride is at most the window or the text fits one window |
| `PerplexityWindows.GapsExample` | scripts/fpq_legal_bench.py:231-248 | windows of 2 at a stride of 4 score 6 of 10 positions |
| `RerankLabels.KnownPrefixIff` | scripts/hybrid_search.py:146-149 | for any list of candidates, repeated ones included, the known candidates are a prefix of it exactly if no unknown one stands before a known one |
| `RerankLabels.FirstRightIff` | scripts/hybrid_search.py:157-158 | the score of the first occurrence of a known candidate is labelled rightly if and only if no unknown candidate stands before it |
| `RerankLabels.LabelsRightIff` | scripts/hybrid_search.py:157-158 | for any list of candidates, the slow reranker labels every score like the fast one if and only if no unknown candidate stands before the first occurrence of a known one |
| `RerankLabels.WrongLabelExample` | scripts/hybrid_search.py:157-158 | an unknown candidate before a known one takes its label |
| `RerankLabels.RepeatedCandidateExample` | scripts/hybrid_search.py:157-158 | an unknown candidate before a mere repetition does no harm |

## Left out

General:

- Floating point, `round(..., 4)`, `int8` conversion and `int16` arithmetic on codes: numbers are exact, so results are stated before rounding, and codes that do not fit a byte are not rejected.
- Input and output: files, SQL text, JSON sidecars, time stamps, the network, command lines and printing.
- Tokenisation, `lower().strip()`, `split()` white space and tokenizer offsets are parameters; offsets are assumed monotone where that is stated.
- Neural models, tokenizers, random number generators: logits, losses, signs and scores are arbitrary inputs.

By member:

- HuffmanTree.HeapPop: states the contract of `heapq` (some lightest node is removed) instead of modelling the binary heap, so results hold for every tie-break.
- HuffmanText.CharFreq: covers symbols as given; word frequencies with `most_common` are not modelled.
- FpqRoundtrip.Roundtrip: the Lloyd tables are an arbitrary quantiser, the root mean square of a block is an arbitrary positive scale, the signs are arbitrary, and the cosine is not computed.
- Butterflies.Fwht: the square root of the length is an argument whose square is the length.
- E8Snap.Snap: the empty vector is included; `mu_warp` and the rest of `encode_block` are not modelled, and neither is the snapping in `scripts/vecf_e8.py`.
- EditDistance.ComputeWer: takes token lists and states the rate before it is rounded.
- ConsensusVote.MergeAll: the order of the records, and of spans with equal start, is left open; the label of a span is constant.
- BioTags.Label: the training loop after the labels, with its early stopping, is not modelled.
- VecfFile.Encode: takes scales and codes; quantising float blocks to them is not modelled.
- VecfFile.LoadVecf2: the bytes of an id are not decoded, the two bytes of a scale are not interpreted, and the float rows are not computed; the checks that these computations make on shapes and divisors are.
- RunLedger.AkaiMemory.RecordRun: the columns of `runs` that no later code reads are left out, and an explicit null for an end of an escalation is read like a missing one although the database rejects it.
- RoutingAdjust.GetRoutingAdjustments: rates are not rounded to four digits, and which of several transitions of one name is listed is left open.
- RoutingAdjust.ComputeAdjustments: `apply_adjustments` on the frontier file is not modelled.
- ConflictDetection.DetectConflicts: the order of the result, and which of two claims comes first in a conflict on one predicate, follow the order of the query and are left open.
- ConflictClusters.ClusterAdvanced: support counts are an arbitrary function of the subjects; the dominant subject and the lists of documents and lenses are not modelled, nor is the order of clusters with equal pressure.
- ConvergenceLoop.RunConvergence: what the swarm finds in each iteration is an arbitrary input; stable and fragile edges and the database rows of the loop are not modelled.
- RerankLabels.LabelsRightIff: compares labels; scores and the selection of the best k are the same in both functions and are left out.

Not modelled at all:

- Failure patterns, collapse detection and `record_path` in `scripts/akai_memory.py`.
- Support links, claim scores and `persist_conflicts` in `scripts/claim_graph.py`.
- Lens recommendations, structural interventions, hypothesis generation and ranking, trackers, demos, servers and recipe generators, which would add only one-branch facts.
