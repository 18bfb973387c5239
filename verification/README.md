# A verified model of the sequence tagger and its companions

This project models the algorithms of a small search framework and of the libraries it carries, and proves what they
compute. `dafny verify dfyconfig.toml` checks everything.

* **The tagger (CRF++).** A sentence of n tokens and y tags is an n x y lattice of heap nodes and paths. Forward-backward,
  viterbi, gradient, collins and the n-best search are proved against the y^n tag sequences themselves
  (`Sums`, `Lattice`, `ForwardBackward`, `Viterbi`, `Nodes`, `LatticeHeap`, `Features`, `Tagger`, `Search`, `NBest`,
  `Training`).
* **Its memory and its features.** The recycling arena, the sentinel-terminated feature cache, the lattice rebuilt from
  it, the templates, the dictionary that hands out blocks of ids, its renumbering, and the model file with its reader
  (`FreeList`, `FeatureCache`, `FeatureIndex`, `Template`, `Sentences`, `Dictionary`, `Encoder`, `ModelFile`, `ModelWriter`,
  `ModelReader`, `Decoder`, `Options`), and all of it in sequence (`Pipeline`), with a pass
  of training over all sentences (`TrainingPass`).
* **The double array (darts).** Keys packed recursively into two arrays, and the searches that walk them (`Bytes`,
  `ArrayState`, `ArrayBuild`, `ArraySearch`, `DoubleArray`).
* **The test library's text tools.** The simple regular expressions (`Regex`) and the edit script with its unified diff
  (`EditScript`, `EditDistance`, `UnifiedDiff`, and `DiffReader`, which reads its text back).
* **The suggestion trie** (`TokenOrder`, `SuggestTrie`) and **the inverted index** with its text file (`Text`,
  `InvertedIndex`).

Code that updates state is a class or a loop over arrays with the fields of the original; its specification is a function
or predicate on values, and the properties promised are lemmas about that. Ghost parameters (a prefix, a list of keys)
name what an object stands for and have no part in the computation. `exp` and `log` are a pair of functions known only
by their laws; numbers are exact reals.

Where code and documentation disagree, the model follows the code:

* viterbi uses -1e37 for minus infinity. `Tagger.Tagger.Viterbi` says exactly when the chain of `prev` pointers is
  complete, and when the result is then optimal; `Viterbi.SentinelTooHigh` is a lattice for which it need not be.
* `RE::FullMatch` promises a match of the entire string. `Regex.FullMatchExact` says for which expressions it keeps that
  promise: all but those that end in an escaped dollar sign.
* `CalculateOptimalEdits` promises optimal edits. `EditScript.OptimalIffNeverMisses` says when its table is optimal for
  all pairs of prefixes, `EditScript.OptimalIffMovesWell` when the script for the two inputs is, and
  `EditScript.NotAlwaysOptimal` is an input for which it is not.
* `CreateUnifiedDiff` accepts a context of 0 but then never writes a hunk.
* The status of the suggestion trie's root is never set; `SuggestTrie.Trie.Search` shows what that can add to the result.

## Model

| member | source | states |
|---|---|---|
| Sums.AllTagsSpec | alias/crf/CRF++-0.53/tagger.cpp:256-272 | the sums below range over a list that holds each of the y^n tag sequences exactly once |
| Sums.SumTagsIsSumOverList | alias/crf/CRF++-0.53/tagger.cpp:256-272 | the nested sum used in the proofs equals the plain sum over that list |
| ExpLog.LogSumExpSpec | alias/crf/CRF++-0.53/node.h:24-33 | log-space addition without the cut-off computes log(exp x + exp y), and in init mode just y |
| ExpLog.CutOffExact | alias/crf/CRF++-0.53/node.h:24-33 | with the cut-off the result is the same if and only if the operands are at most 50 apart |
| Nodes.Node.CalcAlpha | alias/crf/CRF++-0.53/node.cpp:14-21 | exp(alpha) is exp(cost) times the sum of what the left paths contribute; without left paths alpha is the cost |
| Nodes.Node.CalcBeta | alias/crf/CRF++-0.53/node.cpp:23-30 | the same for beta and the right paths |
| Nodes.Path.Add | alias/crf/CRF++-0.53/path.cpp:20-25 | an edge becomes the last left path of its right end and the last right path of its left end, and nothing else changes |
| Nodes.PairIds | alias/crf/CRF++-0.53/path.cpp:14-18 | the pairs of tags and the y*y ids of a block correspond one to one, in row-major order |
| Features.OneWeightOneEdge | alias/crf/CRF++-0.53/feature_index.cpp:424-435 | changing the weight of a bigram feature for one pair of tags changes the cost of exactly that edge, by the change times how often the edge has the feature |
| ForwardBackward.AlphaStep | alias/crf/CRF++-0.53/node.cpp:14-21 | the sum of the weights of all prefixes ending in a node satisfies the recurrence of calcAlpha |
| ForwardBackward.BetaStep | alias/crf/CRF++-0.53/node.cpp:23-30 | the sum of the weights of all suffixes starting in a node satisfies the recurrence of calcBeta |
| ForwardBackward.NodeMassIsAlphaBeta | alias/crf/CRF++-0.53/tagger.h:21-23 | the total weight of the sequences through a node, times the node's own weight, is alpha times beta |
| ForwardBackward.EdgeMassIsAlphaBeta | alias/crf/CRF++-0.53/path.cpp:14-18 | the total weight of the sequences through an edge is alpha of its left end, its weight, and beta of its right end |
| ForwardBackward.MassesSumToPartition | alias/crf/CRF++-0.53/tagger.h:102-108 | at every token the masses of all tags add up to the sum over all sequences |
| Tagger.Tagger.ForwardBackward | alias/crf/CRF++-0.53/tagger.cpp:256-272 | after the call every alpha and beta is the log of its exponential-size sum, and exp(Z) is the sum over all y^n sequences |
| Tagger.Tagger.Prob | alias/crf/CRF++-0.53/tagger.h:102-108 | prob(i, j) is the share of the total weight that uses tag j at token i |
| Tagger.Tagger.ResultProb | alias/crf/CRF++-0.53/tagger.h:102-102 | prob() is the share of the current result in the total weight |
| Features.SequenceProbsSumToOne | alias/crf/CRF++-0.53/tagger.h:102-102 | the shares of all y^n sequences, in any order, add up to 1 |
| Features.NodeProbsSumToOne | alias/crf/CRF++-0.53/tagger.h:102-108 | the probabilities of the tags of one token add up to 1 |
| Viterbi.BestStep | alias/crf/CRF++-0.53/tagger.cpp:274-290 | the best candidate over all left neighbours is the best score of all prefixes ending in the node |
| Viterbi.ScoreBound | alias/crf/CRF++-0.53/tagger.cpp:293-301 | no complete sequence beats the best end node |
| Tagger.Tagger.Viterbi | alias/crf/CRF++-0.53/tagger.cpp:274-307 | the prev chain is complete if and only if every node's best prefix lies above the -1e37 sentinel; the result is then optimal if and only if some sequence lies above the sentinel or the old result, which otherwise stays, is optimal; in the first case its score is -cost and it is the first of the best ones; all that holds if 2n - 1 costs of the largest size stay below 1e37 |
| Viterbi.SentinelTooHigh | alias/crf/CRF++-0.53/tagger.cpp:291-304 | a lattice whose two sequences score -1e37 and less, with a result that stays although the other one scores more |
| Viterbi.OrdinaryCosts | alias/crf/CRF++-0.53/tagger.cpp:274-307 | if 2n - 1 times the largest cost is below 1e37, no prefix comes near the sentinel |
| Viterbi.IsFirstBest | alias/crf/CRF++-0.53/tagger.cpp:277-301 | the strict comparisons single out one of the best sequences: any that agrees with it behind some token and has a smaller tag there scores less |
| Tagger.Tagger.BuildLattice | alias/crf/CRF++-0.53/tagger.cpp:241-254 | the rebuilt lattice is linked, carries the cached features, and has on every node and edge the cost the weights give them |
| ForwardBackward.ExpectationByNode | alias/crf/CRF++-0.53/node.cpp:32-37 | averaging a quantity read off the tag of a token over all y^n sequences equals summing it over the y nodes, weighted by their masses |
| ForwardBackward.ExpectationByEdge | alias/crf/CRF++-0.53/path.cpp:14-18 | the same for a quantity read off an edge |
| Nodes.Node.CalcExpectation | alias/crf/CRF++-0.53/node.cpp:32-37 | the array gains, per index, the node's probability times its hits plus the edges' probabilities times theirs |
| Nodes.Path.CalcExpectation | alias/crf/CRF++-0.53/path.cpp:14-18 | the array gains the edge's probability at exactly the indices f + y * size + y' of its features, y and y' being the tags of its ends, with multiplicity |
| Features.NodeSumIsExpectation | alias/crf/CRF++-0.53/tagger.cpp:316-318 | what the double loop over tokens and tags adds is the expected count over all y^n sequences |
| Features.ScoreIsDot | alias/crf/CRF++-0.53/feature_index.cpp:411-435 | the score of a sequence is the cost factor times the inner product of the weights with its feature counts |
| Training.Gradient | alias/crf/CRF++-0.53/tagger.cpp:309-338 | each entry changes by expected count minus count in the answer; the value is minus the log-probability of the answer; the empty sentence changes nothing |
| Training.Collins | alias/crf/CRF++-0.53/tagger.cpp:340-393 | the vector gains the counts of the answer and loses those of the found sequence; the value is score(result) - score(answer), minus the cost factor times the inner product of weights and change, and not negative when viterbi is optimal; also on the early return |
| Search.InitInv | alias/crf/CRF++-0.53/tagger.cpp:173-194 | the initial agenda covers every sequence and produced none |
| Search.ExpandInv | alias/crf/CRF++-0.53/tagger.cpp:207-218 | replacing an incomplete entry by its extensions loses and duplicates no sequence |
| Search.EmitInv | alias/crf/CRF++-0.53/tagger.cpp:202-205 | producing a top entry that beats everything still covered keeps the order |
| Search.DoneInv | alias/crf/CRF++-0.53/tagger.cpp:221-221 | when the agenda is empty exactly all sequences have been produced |
| Search.WorkShrinks | alias/crf/CRF++-0.53/tagger.cpp:207-218 | every expansion lessens the unexpanded part of the search tree, so next terminates |
| NBest.NBest.InitNbest | alias/crf/CRF++-0.53/tagger.cpp:173-194 | the queue satisfies the invariant of the search with nothing produced, whatever viterbi made of the costs |
| NBest.NBest.Next | alias/crf/CRF++-0.53/tagger.cpp:196-222 | returns true exactly while fewer than y^n sequences were produced; then appends a new one with cost minus its score; false means all have been produced, and stays so; for any lattice, and in order if bestCost is exact |
| NBest.NBest.Best | alias/crf/CRF++-0.53/tagger.cpp:468-473 | the first min(n, y^n) calls give different sequences, each with its probability; if bestCost is exact they come best first, none better missing, the first of them optimal |
| NBest.Parse | alias/crf/CRF++-0.53/tagger.cpp:395-406 | lattice, forward-backward, viterbi and n-best search on a cached sentence: different sequences of the lattice of its features, ranked if no node's best prefix is below the sentinel, with probabilities that add up to 1 once all are listed; the index can be used again |
| FreeList.FreeList.Alloc | alias/crf/CRF++-0.53/freelist.h:37-48 | the slice is inside a chunk if and only if len < size, or len == size away from the end of the arena; it is then disjoint from every slice handed out since the last free |
| FreeList.FreeList.Free | alias/crf/CRF++-0.53/freelist.h:35-35 | all chunks are kept and may be handed out again |
| FeatureIndex.Arena.Alloc | alias/crf/CRF++-0.53/freelist.h:37-48 | an object handed out is not among those in use |
| FeatureCache.FeatureCache.Add | alias/crf/CRF++-0.53/feature_cache.cpp:13-18 | whenever the vector and its sentinel fit a chunk, the cache grows by the vector; all vectors before it keep their contents although they share chunks |
| FeatureCache.FeatureCache.Vector | alias/crf/CRF++-0.53/feature_cache.cpp:23-23 | following a pointer up to the sentinel reads the cached vector |
| FeatureCache.FeatureCache.Shrink | alias/crf/CRF++-0.53/feature_cache.cpp:20-31 | in place, every vector becomes its old self with dropped features removed and the others renamed in order |
| FeatureIndex.FeatureIndex.RebuildFeatures | alias/crf/CRF++-0.53/feature.cpp:109-140 | out of recycled memory, all nodes and edges are distinct, lpath[k] and rpath[k] are the edges from and to tag k, and each carries exactly the vector cached for it |
| FeatureIndex.FeatureIndex.CalcNodeCost | alias/crf/CRF++-0.53/feature_index.cpp:411-422 | the cost of a node is the cost factor times the sum of the weights of its features at its tag |
| FeatureIndex.FeatureIndex.CalcPathCost | alias/crf/CRF++-0.53/feature_index.cpp:424-435 | the cost of an edge is the cost factor times the sum of the weights at f + y * ysize + y', y and y' being the tags of its ends |
| Dictionary.TiledAdd | alias/crf/CRF++-0.53/feature_index.cpp:33-42 | a new block of y ids (keys that start with U) or y*y ids keeps the blocks disjoint and without gaps |
| Dictionary.IdsApart | alias/crf/CRF++-0.53/feature_index.cpp:33-42 | different features have different ids |
| Encoder.EncoderIndex.GetID | alias/crf/CRF++-0.53/feature_index.cpp:33-47 | a known feature keeps its id, a new one gets the next y ids if it starts with U, and else the next y*y; its frequency grows by one, no other entry changes, and the blocks still tile the ids |
| Template.GetIndex | alias/crf/CRF++-0.53/feature.cpp:18-75 | for the text of a reference, the entry it stands for at a token, markers before and behind the sentence, or nothing if it reaches more than four rows or past the columns; for a text that is none, nothing |
| Template.ApplyRule | alias/crf/CRF++-0.53/feature.cpp:77-107 | for the text of a template, its expansion at a token, or nothing exactly if it ends in a bad reference or one of its references reaches too far; the largest column used is kept |
| Template.OneReference | alias/crf/CRF++-0.53/feature.cpp:15-75 | a reference stands for the entry of its column in the row so many tokens ahead or behind, or for one of the eight markers _B-1 to _B-4 and _B+1 to _B+4 by distance |
| Template.ExpansionMore | alias/crf/CRF++-0.53/feature.cpp:77-107 | characters stand for themselves, and the parts of a template are expanded one after the other |
| Template.TemplateOrUnclosed | alias/crf/CRF++-0.53/feature.cpp:18-107 | every C string is a template in this sense, with or without a bad end, unless it ends inside a reference |
| Sentences.PiecesExist | alias/crf/CRF++-0.53/feature.cpp:77-107 | so the pieces that the contracts of buildFeatures speak of exist, for all templates that do not end inside a reference |
| Template.ExpansionStarts | alias/crf/CRF++-0.53/feature.cpp:85-99 | an expansion starts with the first character of its template, so unigram features start with U and bigram features do not |
| Template.ExpansionNarrow | alias/crf/CRF++-0.53/feature.cpp:59-74 | columns that a template does not refer to do not change its expansion |
| Sentences.SentenceNarrow | alias/crf/CRF++-0.53/feature_index.cpp:333-335 | a sentence read with only the columns that the saved xsize keeps has the same features |
| Encoder.EncoderIndex.BuildFeatures | alias/crf/CRF++-0.53/feature.cpp:145-174 | fails exactly if some template is badly written or reaches too far where it is applied; otherwise the cache gains the vectors of the expanded templates of every token and pair of neighbours, all ids stay, and every frequency grows by the number of occurrences; what was read before is kept |
| Encoder.EncoderIndex.Shrink | alias/crf/CRF++-0.53/feature_index.cpp:163-188 | exactly the features asked for at least freq times survive, their blocks tile the ids again in the order of their names, and every cached vector is that of the surviving features of its list; freq <= 1 changes nothing |
| Dictionary.RenamedIds | alias/crf/CRF++-0.53/feature_cache.cpp:20-31 | renaming a vector gives the vector of the features that survive, in order |
| Dictionary.CostKept | alias/crf/CRF++-0.53/feature_index.cpp:411-435 | feature costs survive the renumbering when the weights move with their blocks and dropped weights are 0 |
| Dictionary.RelocationExists | alias/crf/CRF++-0.53/feature_index.cpp:163-188 | the weights can always be moved, because the new blocks do not overlap |
| Dictionary.LatticeKept | alias/crf/CRF++-0.53/feature_index.cpp:411-435 | all node and edge costs of a sentence survive the renumbering |
| Dictionary.ScoresSame | alias/crf/CRF++-0.53/feature_index.cpp:411-435 | with the same costs, every tag sequence has the same score |
| Encoder.EncoderIndex.OpenTemplate | alias/crf/CRF++-0.53/feature_index.cpp:54-71 | succeeds exactly if every line is empty, a comment, or starts with U or B; the two lists then gain the lines of their kind in order |
| Encoder.EncoderIndex.Save | alias/crf/CRF++-0.53/feature_index.cpp:284-362 | saving never fails to build the array; the file is the bytes of the model, its array holds exactly the dictionary, and the file can be read back if it is shorter than 4 GB, has at most 2^31 ids and a non-empty dictionary |
| Encoder.FitsWritable | alias/crf/CRF++-0.53/feature_index.cpp:318-350 | all numbers of such a file, the bases and checks of the array among them, fit 32 bits |
| ModelFile.Le32RoundTrip | alias/crf/CRF++-0.53/feature_index.cpp:321-345 | unsigned and signed values that fit 32 bits are read back as written |
| ModelFile.PartAt | alias/crf/CRF++-0.53/feature_index.cpp:321-350 | each part of the file is found where the parts before it end |
| ModelReader.ReadTags | alias/crf/CRF++-0.53/feature_index.cpp:121-129 | the tag list is read back from its NUL-terminated strings |
| ModelReader.ReadTemplates | alias/crf/CRF++-0.53/feature_index.cpp:131-148 | both template lists are read back in spite of the NUL padding, also when skipping an odd padding runs into the bytes of the double array |
| Decoder.DecoderIndex.Open | alias/crf/CRF++-0.53/feature_index.cpp:103-161 | opening a saved file gives back tags, templates, sizes, cost factor and array, and each weight cast to float; another version is refused |
| DicArray.HeldLookup | alias/crf/CRF++-0.53/feature_index.cpp:307-316 | looking a key up in the saved array gives the id the dictionary has for it, and -1 for any other key |
| Decoder.DecoderIndex.GetID | alias/crf/CRF++-0.53/feature_index.cpp:29-31 | the decoder's getID agrees with the saved dictionary on every key, and is -1 elsewhere |
| Decoder.DecoderIndex.RowFeatures | alias/crf/CRF++-0.53/feature.cpp:145-174 | the decoder's vector of a row is the training vector of its known features |
| Decoder.DecoderIndex.BuildFeatures | alias/crf/CRF++-0.53/feature.cpp:145-174 | fails exactly when training would; otherwise the cache gains, row by row, the training vectors of the known features |
| Pipeline.CachedSentence | alias/crf/CRF++-0.53/feature.cpp:145-174 | the cached vectors of the rows of a sentence are the features of that sentence in the dictionary |
| TrainingPass.SentenceInBounds | alias/crf/CRF++-0.53/tagger.cpp:309-333 | every index that a sentence touches lies within a vector with one entry per id |
| TrainingPass.SentenceGradient | alias/crf/CRF++-0.53/tagger.cpp:309-338 | gradient on a sentence cached while training: no bounds are assumed, the lattice is that of the dictionary, and the next sentence can follow |
| TrainingPass.SentenceCollins | alias/crf/CRF++-0.53/tagger.cpp:340-393 | the same for collins |
| Pipeline.ReadSentence | alias/crf/CRF++-0.53/feature.cpp:145-174 | buildFeatures makes a sentence one that the encoder has read, unless a template is bad or reaches too far; every feature is counted as often as it occurs, and nothing read before is lost |
| Pipeline.StillRead | alias/crf/CRF++-0.53/feature.cpp:145-174 | a sentence that has been read stays read when more is read |
| Pipeline.ReadAll | alias/crf/CRF++-0.53/encoder.cpp:284-309 | reading fails exactly at a sentence whose features cannot be built; otherwise all sentences have been read, and every feature has been counted as often as it occurs in all of them |
| Pipeline.Learn | alias/crf/CRF++-0.53/encoder.cpp:275-309 | the same from a new index and the lines of the template file on |
| Pipeline.TrainAndDecode | alias/crf/CRF++-0.53/feature_index.cpp:103-350 | for any of the sentences read: after shrink, any training, save, open and buildFeatures in sequence, the decoder's lattice of the sentence is the one training used, with the weights as floats; and it has the costs of the lattice before shrink for weights that these relocate; exactly the features counted freq times survive |
| Pipeline.FloatsKept | alias/crf/CRF++-0.53/feature_index.cpp:347-350 | storing weights as floats changes nothing exactly if each of them is a float already |
| Pipeline.LearnAndDecode | alias/crf/CRF++-0.53/encoder.cpp:275-360 | from template lines and training sentences to the decoder's lattice: the model has exactly the features that occur at least freq times in the training data (freq > 1), and the lattice is that of the trained weights |
| TrainingPass.OneMoreExample | alias/crf/CRF++-0.53/encoder.cpp:49-50 | the gradient and the likelihood of the data grow by one sentence |
| TrainingPass.GradientPass | alias/crf/CRF++-0.53/encoder.cpp:45-54 | one pass over all sentences: the vector is the sum of expected minus observed counts of all of them, exp(-obj) is the probability of all answers, and the next pass can begin |
| DoubleArray.DoubleArray.Grow | alias/crf/CRF++-0.53/darts.h:154-156 | growing keeps all slots, adds at least 256 empty ones, and multiplies the size by keys over progress, but at least by 1.05 |
| DoubleArray.DoubleArray.Fetch | alias/crf/CRF++-0.53/darts.h:90-127 | the siblings are the runs of equal code, in ascending order; error -3 exactly if the codes descend somewhere |
| DoubleArray.DoubleArray.FindSlot | alias/crf/CRF++-0.53/darts.h:129-168 | the search ends, all indices stay in range, the begin found is unused and all its slots are free; it is the first such begin from where the search starts; on an empty array it is 1 |
| DoubleArray.DoubleArray.Place | alias/crf/CRF++-0.53/darts.h:178-186 | exactly the slots of the siblings get the begin as their check |
| Bytes.LeqMeans | alias/crf/CRF++-0.53/darts.h:266-301 | the order of the keys: a prefix, or smaller at the first byte that differs, as unsigned |
| ArrayState.PlaceExtends | alias/crf/CRF++-0.53/darts.h:178-186 | placing a node keeps begins positive and different, every begin in use that of a placed prefix, every occupied slot within the codes of such a begin, and disturbs nothing placed earlier |
| ArraySearch.FinishOwned | alias/crf/CRF++-0.53/darts.h:129-206 | in the finished array every occupied slot belongs to exactly one pair of a prefix and a code, and some key goes on that way |
| ArrayState.CompleteStable | alias/crf/CRF++-0.53/darts.h:129-206 | a complete node stays complete whatever is placed later |
| ArrayBuild.BuiltChild | alias/crf/CRF++-0.53/darts.h:188-203 | a recursive call that adds a child's subtree leaves the parent and the subtrees before it in place |
| ArrayState.BuildableByRun | alias/crf/CRF++-0.53/darts.h:90-127 | a range of keys can be packed if and only if each of its runs can |
| DoubleArray.DoubleArray.Insert | alias/crf/CRF++-0.53/darts.h:129-206 | adds exactly the subtree of its prefix, all nodes complete, nothing earlier disturbed, every occupied slot within the codes of one placed prefix; error 0 if and only if the keys ascend and first values are not negative; terminates with the key length |
| DoubleArray.DoubleArray.Build | alias/crf/CRF++-0.53/darts.h:266-301 | returns 0 if and only if the keys ascend (repetitions allowed) and the first of equal keys has a value of at least 0; then the array, and its saved image, hold exactly the keys, no slot is occupied that no key needs, and no entry is larger than the used size or the largest value; an error of an earlier build is returned again |
| ArraySearch.Follow | alias/crf/CRF++-0.53/darts.h:414-419 | one step of a walk succeeds exactly if some key goes on with that byte |
| ArraySearch.AtEnd | alias/crf/CRF++-0.53/darts.h:421-423 | at the end of a walk there is a value exactly if the string is a key |
| DoubleArray.DoubleArray.ExactMatchSearch | alias/crf/CRF++-0.53/darts.h:399-424 | the value of the key's first occurrence, and -1 exactly if the string is no key; a length of 0 means up to the NUL |
| DoubleArray.DoubleArray.CommonPrefixSearch | alias/crf/CRF++-0.53/darts.h:427-464 | the exact number of keys that are prefixes of the query; the first result_len of them are stored |
| ArraySearch.HitsExact | alias/crf/CRF++-0.53/darts.h:427-464 | every prefix that is a key is reported once with its value, in increasing length, and nothing else is |
| DoubleArray.DoubleArray.Traverse | alias/crf/CRF++-0.53/darts.h:466-491 | the report for what was walked, and both positions moved exactly as far as some key goes |
| ArraySearch.ReportMeans | alias/crf/CRF++-0.53/darts.h:466-491 | -2 exactly if no key has the prefix, -1 exactly if some key extends it but none equals it, otherwise the value |
| ArraySearch.Resumable | alias/crf/CRF++-0.53/darts.h:466-491 | a walk over k1 and then k2 gives the same report, position and length as one over both |
| ArraySearch.FailsForGood | alias/crf/CRF++-0.53/darts.h:466-491 | if the walk over k1 fails, the walk over both fails at the same place |
| Regex.ValidateRegex | alias/gtest/src/gtest-port.cc:681-735 | true exactly for the texts of well-formed expressions, false for a null pointer |
| Regex.ValidIsText | alias/gtest/src/gtest-port.cc:681-735 | the checks accept exactly the texts of the grammar |
| Regex.AtomExact | alias/gtest/src/gtest-port.cc:630-673 | for every atom and character, by character codes: a dot matches all but the newline, other plain characters themselves, the classes exactly their digits, white space, or letters, digits and underscore, or all others, and escapes their one character |
| Regex.EscapeExact | alias/gtest/src/gtest-port.cc:635-650 | exactly the 32 punctuation characters and eleven letters can be escaped |
| Regex.OneItemMatches | alias/gtest/src/gtest-port.cc:744-797 | one repeated atom up to the end matches exactly the strings of its characters of an allowed length |
| Regex.DotAndDigit | alias/gtest/src/gtest-port.cc:652-673 | alone up to the end, a dot matches any one character but the newline, and an escaped d one of ten digits |
| Regex.FirstItem | alias/gtest/src/gtest-port.cc:744-766 | matching at the head is matching a first piece and then the rest behind it |
| Regex.MatchRepetitionAndRegexAtHead | alias/gtest/src/gtest-port.cc:744-766 | true exactly if some allowed number of repetitions lets the rest match; terminates with the expression |
| Regex.MatchRegexAtHead | alias/gtest/src/gtest-port.cc:771-797 | true exactly if some prefix of the string, or all of it for a trailing $, is in the language |
| Regex.MatchRegexAnywhere | alias/gtest/src/gtest-port.cc:807-820 | true exactly if this holds at some offset, or at the start for a leading ^ |
| Regex.RE.constructor | alias/gtest/src/gtest-port.cc:841-873 | the object is valid exactly for well-formed expressions; its full pattern is anchored at both ends, except where a final escaped dollar sign is taken for the anchor |
| Regex.RE.PartialMatch | alias/gtest/src/gtest-port.cc:836-838 | true exactly if some part of the string matches a valid expression |
| Regex.RE.FullMatch | alias/gtest/src/gtest-port.cc:830-832 | true exactly if the full pattern matches; that is the promised whole-string match unless the expression ends in an escaped dollar sign |
| Regex.FullMatchExact | alias/gtest/src/gtest-port.cc:841-873 | a full match means that the whole string is in the language if and only if the expression does not end in an escaped dollar sign that is taken for the anchor |
| EditScript.PathReplays | alias/gtest/src/gtest.cc:1069-1080 | the path read off the table replays left into right and costs what the table says |
| EditScript.OptimalIffNeverMisses | alias/gtest/src/gtest.cc:1055-1066 | no script is cheaper than the table, for all pairs of prefixes, if and only if no cell takes the replace branch although adding or removing would be cheaper |
| EditScript.LeastReached | alias/gtest/src/gtest.cc:1055-1066 | the cost that the textbook recurrence gives is that of some script |
| EditScript.LeastBelow | alias/gtest/src/gtest.cc:1055-1066 | no script costs less than that |
| EditScript.OptimalIffMovesWell | alias/gtest/src/gtest.cc:1055-1080 | the edits read off for two inputs are optimal if and only if each of their moves is a cheapest one by the textbook recurrence |
| EditScript.NotAlwaysOptimal | alias/gtest/src/gtest.cc:1055-1066 | from aba to bab the table says three replacements where two edits are enough |
| EditDistance.OptimalEditsOfIds | alias/gtest/src/gtest.cc:1025-1081 | the filled tables and the walk back through them give that path |
| EditDistance.InternalStrings.GetId | alias/gtest/src/gtest.cc:1085-1097 | equal strings get equal ids and different ones different ids, for good |
| EditDistance.CalculateOptimalEdits | alias/gtest/src/gtest.cc:1101-1115 | the script replays left into right and costs what the table says; it is optimal if and only if each of its moves is a cheapest last move between its prefixes, and so whenever the table never misses |
| UnifiedDiff.Hunk.PushLine | alias/gtest/src/gtest.cc:1132-1148 | grouping removes before adds changes neither side; the counters count |
| UnifiedDiff.Hunk.PrintTo | alias/gtest/src/gtest.cc:1150-1161 | the text has the header, without the range of a side that does not change, and the pushed lines, with right lengths and no added line directly before a removed one |
| UnifiedDiff.ChainPatches | alias/gtest/src/gtest.cc:1200-1260 | ordered, non-overlapping hunks with right headers and equal gaps turn left into right |
| UnifiedDiff.RoomForContext | alias/gtest/src/gtest.cc:1215-1221 | the context of a hunk never overlaps the hunk before it |
| UnifiedDiff.CreateUnifiedDiff | alias/gtest/src/gtest.cc:1200-1260 | the text is that of hunks that are in order, do not overlap, and whose start lines and counts are right on both sides; each is about a segment of the edit script, marks its lines as the script does, and has exactly the wanted context, with longer runs of common lines only between hunks; no edit is missing; they patch left into right if and only if context is positive or the sides are equal; without context there are none |
| DiffReader.NumberBack | alias/gtest/src/gtest.cc:1172-1182 | the digits of a printed number have its value, without leading zeros |
| DiffReader.HeaderBack | alias/gtest/src/gtest.cc:1172-1185 | a parser of the header gets back the start and the length of each side that changes, and nothing for the other |
| DiffReader.DiffDetermines | alias/gtest/src/gtest.cc:1150-1260 | reading the text of a diff of lines without newlines gives back all headers, and all lines with their marks |
| SuggestTrie.TreeGrows | alias/dat/trie.h:45-50 | a new child keeps the heap a tree: every node has one path, nothing is shared |
| SuggestTrie.Trie.AddChild | alias/dat/trie.h:45-50 | the heap gains exactly one node, empty and not marked |
| SuggestTrie.Trie.Insert | alias/dat/trie.h:40-55 | the contents gain the key with this value, replacing an earlier one; the empty key is ignored; the heap stays a tree |
| SuggestTrie.Trie.ExtractSearch | alias/dat/trie.h:57-66 | the node of a token sequence, or null exactly if there is none |
| SuggestTrie.Trie.DfsSearch | alias/dat/trie.h:68-77 | appends one pair per key below a node, in lexicographic order of tokens, with its last value |
| SuggestTrie.Trie.Search | alias/dat/trie.h:79-86 | appends exactly the keys that continue the tokens searched for, each once, in order, with last values; for an empty search also the root exactly if its never-set status happens to be 1 |
| TokenOrder.ListsMore | alias/dat/trie.h:73-76 | the subtree behind the next token continues the ordered list |
| TokenOrder.ListsOnce | alias/dat/trie.h:68-77 | only one list has the keys in this order, so the result is determined |
| InvertedIndex.CountsAddUp | index/build_index.cpp:33-77 | the counts of a word's postings add up to its frequency |
| InvertedIndex.BuildIndex | index/build_index.cpp:33-77 | every word has one posting per document that contains it, with its count there; its frequency is the sum of the counts and its document frequency the number of postings; the length of a document is that of its last line |
| InvertedIndex.DocOfLine | index/build_index.cpp:37-44 | a line of an id, a tab and a text is the document with this id and the words of the text |
| InvertedIndex.WriteIndex | index/build_index.cpp:79-95 | the text has one line per word of at least three bytes |
| Text.Split | util/utils.h:64-82 | the pieces between characters of the delimiter set; the last one is dropped if the string ends in a tab, whatever the delimiter |
| Text.PiecesOfJoin | util/utils.h:64-82 | splitting what was joined gives back the pieces, if none contains the delimiter |
| Text.AtoiBack | plugin/dict_mgr.h:148-149 | every integer that is written is read back |
| Text.DecimalStarts | index/build_index.cpp:86-86 | numbers are written without leading zeros, negative ones with a minus sign |
| Text.AtoiReads | plugin/dict_mgr.h:148-149 | atoi skips white space, reads one sign, and then the digits up to the first other character |
| Text.LinesBack | plugin/dict_mgr.h:131-136 | written lines are read back |
| Text.UnendedLine | plugin/dict_mgr.h:131-136 | a last line without a newline is read too |
| InvertedIndex.LoadIndexDict | plugin/dict_mgr.h:131-157 | loading makes of each line what the loader's specification says, later lines replacing earlier ones |
| InvertedIndex.LineBack | plugin/dict_mgr.h:136-155 | a written line is split into its word and exactly its postings |
| InvertedIndex.IndexRoundTrip | plugin/dict_mgr.h:131-157 | loading the written index gives back exactly the postings of all words of at least three bytes |
| InvertedIndex.IndexAndLoad | index/build_index.cpp:33-95 | building, writing and loading in sequence: exactly the words of at least three bytes that occur, each with one posting per document that contains it, whose counts add up to its frequency |

## Left out

- ExpLog.LogSumExpSpec: is about logsumexp without its cut-off, which forward-backward uses; CutOffExact says when the two agree. How far sums with the cut-off drift is not modelled.
- FreeList.FreeList.Alloc: chunk memory is numbered, not allocated; the caller makes the objects of a new chunk.
- FeatureIndex.FeatureIndex.RebuildFeatures: a node or edge holds its feature vector by value, read from the cache, not as a pointer into it.
- Template.GetIndex: nothing is claimed for a reference without a closing bracket, behind which the source reads past the end of the template. Row and column numbers do not overflow.
- Template.ApplyRule: the same for a template that ends inside a reference (`Template.Unclosed`).
- Encoder.EncoderIndex.BuildFeatures: the same for such templates; a row with as many templates as fill a whole chunk of the cache is not covered, as it depends on the state of the arena whether it fits.
- Decoder.DecoderIndex.BuildFeatures: the same.
- Nodes.Node.CalcAlpha: the terms of the sum are a ghost parameter that the caller ties to the lattice.
- DoubleArray.DoubleArray.Grow: while no key has been stored the growth factor is arbitrary, since the source then divides by zero; the two arrays are sequences that are replaced when they change.
- DoubleArray.DoubleArray.FindSlot: where the next search starts (next_check_pos_, a heuristic) is not claimed.
- DoubleArray.DoubleArray.Build: for a new or cleared object. A second build without clear is undefined in the source: build deletes used_ but keeps alloc_size_, and the next resize copies that many entries from it.
- Encoder.EncoderIndex.GetID: ids and frequencies do not wrap around at 32 bits.
- Encoder.EncoderIndex.Save: the optional text form of the model, and convert, which reads it, are not modelled.
- Decoder.DecoderIndex.Open: covers files shorter than 4 GB with at most 2^31 ids and a dictionary that is not empty; for an empty one nothing is claimed, as the source would read outside the file. Reading past the end, undefined in the source, is reported as an error. Weights are floats of the host; byte order is little-endian.
- Pipeline.LearnAndDecode: the training itself is any function from the number of ids to as many weights; the tags and the number of columns are given, where openTagSet takes them from the training data. Sentences have exactly these columns; further ones are never looked at.
- TrainingPass.GradientPass: one thread; with more, each has its own arenas and every so-many-th sentence. The error counts of eval are not modelled.
- Training.Gradient: the L-BFGS training loop around it, with its tolerances and square roots, is not modelled.
- NBest.NBest.Next: the priority queue is a sequence of which any smallest element may come first; ties are not resolved the way a heap would.
- NBest.Parse: for lattices in which some node's best prefix lies below the sentinel, the order of the sequences is not claimed.
- Regex.MatchRegexAtHead: strings are shorter than the largest size_t, beyond which the source calls its behaviour undefined. Messages of ValidateRegex are not modelled.
- SuggestTrie.Trie.Insert: strings come split into tokens; split_ch_words and the file loader build are not modelled.
- InvertedIndex.BuildIndex: the word segmenter is a parameter; the files word_freq.dict, word_doc_freq.dict and doc_length.dict, a key and a number per line, would only add easy members.
- InvertedIndex.IndexAndLoad: for a segmenter whose words have no byte that its text has not; atoi does not overflow.
- Rounding, 32-bit overflow of costs and counts, and double-to-float casts other than in the model file.
- dat.h: its resize copies bytes where it should copy elements, so the refinement proved for darts.h does not hold for it.
- Files, mmap, console output and option parsing; sockets, event loops, thread pool, logger, HTTP parsing, scoring and paging: thin layers or floating point.
- The rest of the test library, SWIG and C wrappers, and sample programs.
