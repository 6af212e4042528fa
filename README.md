# ACsploit exploit constructors and shell session, in Dafny

ACsploit builds worst-case inputs for algorithms. Each algorithm class in `Algorithms.py`
has an `exploit(generator, n_inputs)` method. The method asks a value generator a bounded
series of questions (a random value, a value below or above a given one, the minimum, the
maximum) and builds an adversarial artifact from the answers. The artifacts are:

- a strictly decreasing list (Sort, BinarySearchTree, AVLTree, Trie);
- a flow network with one heavy source (FordFulkerson);
- a complete graph rendered as text (Fleury) or as weighted adjacency lists (Kruskal);
- a complete bipartite graph (HopcroftKarp);
- a text and pattern made of one repeated character (RabinKarp, BoyerMoore);
- a list of colliding key pairs found by a birthday search (Hashmap).

The shortest-path, spanning-tree and max-flow classes delegate to Kruskal, and the traversal
classes delegate to Fleury. The model keeps both delegations as written.

`acsploit.py` is the interactive shell. From it the model takes `color` and the
`exploit_path_complete` completer, which offers the next `/`-separated segment of each
matching exploit path. It also takes the session state that `set`, `use`,
`update_exploit` and `run` read and change.

The generator classes are not part of this model. `Generators.Generator` describes a
generator by what it answers:

- Every `get_random`, `get_less_than` and `get_greater_than` call is answered by an oracle.
  The oracle is indexed by how many such calls came before. The counter `queries` is the
  generator's randomness state.
- `get_min_value` and `get_max_value` return fixed bounds and consume nothing.
- The ordering facts are assumptions. `Generator.Rises()` says `<` is a strict order and
  `v < get_greater_than(v)`; `Generator.Falls()` says `<` is a strict order and
  `get_less_than(v) < v`. Every property that needs one takes it as a hypothesis: the
  get_greater_than constructors need only `Rises()`, which a string generator ordered by
  Python's `<` can meet (`Traversal.AppendingRises`), and the Sort family needs only
  `Falls()`.

Each exploit is a method proved against a specification function of the generator's
answers:

- the chain of successive answers (`Chains.Chain`);
- `Ordering.Descending`, `Flow.FlowNetwork`, `SpanningTree.UniformGraph`,
  `Traversal.FleuryText`, `Matching.Bipartite`, `StringMatch.TextAndPattern` and
  `Hashing.Scanned`.

Lemmas then prove the shapes the source promises about those functions. Python's exceptions
become `Outcomes.Result` values.

Three facts about the code are worth stating, because the class names suggest otherwise:

- The max-flow and min-cut classes (Algorithms.py:49-63) call Kruskal's exploit, not
  FordFulkerson's.
- FordFulkerson gives the source an edge to itself (Algorithms.py:43-44): the source's edge
  set includes `(nodes[0], heavy)`.
- A Hashmap pair may repeat a value (Algorithms.py:309-310). When a random value equals the
  value recorded for its hash, both halves of the pair are that value.

## Model

| member | source | states |
|---|---|---|
| PyBuiltins.Count | Algorithms.py:35 | `range(n)` runs n times for n ≥ 0 and not at all for negative n |
| PyBuiltins.TruncHalf | Algorithms.py:207 | `int(n / 2)` truncates toward zero: 2h ≤ n < 2h + 2 for n ≥ 0, mirrored for n < 0 |
| PyBuiltins.Repeat | Algorithms.py:206-207 | `c * m` has length max(m, 0) and every character is `c` |
| Generators.Generator.constructor | Algorithms.py:10 | a generator starts with no queries answered and the given oracles and bounds |
| Generators.Generator.GetRandom | Algorithms.py:18 | the answer is the draw oracle at the current query number, and one query is consumed |
| Generators.Generator.GetLessThan | Algorithms.py:21 | the answer comes from the below oracle and one query is consumed; when get_less_than falls it is below its argument |
| Generators.Generator.GetGreaterThan | Algorithms.py:37 | the answer comes from the above oracle and one query is consumed; when get_greater_than rises it is above its argument |
| Generators.Generator.GetMinValue | Algorithms.py:93 | returns the configured minimum and consumes no query |
| Generators.Generator.GetMaxValue | Algorithms.py:30 | returns the configured maximum and consumes no query |
| Chains.Chain | Algorithms.py:35-37 | the seed followed by m successive answers: m + 1 values, starting with the seed |
| Chains.ChainLinks | Algorithms.py:20-21 | each chain element after the first answers a query about its predecessor, at its own query number |
| Chains.ChainPrefix | Algorithms.py:35-37 | a shorter chain from the same start is a prefix of a longer one |
| Chains.ChainMonotone | Algorithms.py:20-21 | if every step moves forward in a transitive relation, any earlier element precedes any later one |
| Chains.AdjacentOrder | Algorithms.py:20-21 | in a transitive relation, a list whose every element precedes the next is ordered throughout |
| Chains.ChainRises | Algorithms.py:36-37 | when get_greater_than rises in a strict order, a get_greater_than chain is strictly increasing and its values are pairwise distinct |
| Chains.ChainFalls | Algorithms.py:20-21 | when get_less_than falls in a strict order, a get_less_than chain is strictly decreasing and its values are pairwise distinct |
| Chains.DistinctCard | Algorithms.py:161-165 | a list without repetitions has as many distinct values as elements, so it gives one dictionary key per element |
| Chains.ClimbNodes | Algorithms.py:35-37 | the node loop keeps the first max(n, 0) chain values from the seed and asks max(n, 0) queries |
| Ordering.Descending | Algorithms.py:17-23 | the output has n values when n ≥ 1 and one when n ≤ 0; the first is the random draw |
| Ordering.DescendingShape | Algorithms.py:17-23 | each value after the first is get_less_than of its predecessor; when get_less_than falls, or when `<` is a strict order and each answer actually received fell, the list is strictly decreasing and duplicate-free |
| Ordering.DecreasingChain | Algorithms.py:18-23 | the loop's output is the descending chain, after max(n, 1) queries |
| Ordering.Sort | Algorithms.py:17-23 | Sort returns the descending chain |
| Ordering.BinarySearchTree | Algorithms.py:334-340 | BinarySearchTree returns the same descending chain |
| Ordering.AVLTree | Algorithms.py:344-350 | AVLTree returns the same descending chain |
| Ordering.Trie | Algorithms.py:320-326 | Trie returns the same descending chain |
| Flow.FlowNetwork | Algorithms.py:38-44 | the dictionary the loops build: every middle node maps to the light edges, then the source is (re)assigned the heavy edges |
| Flow.EdgesMembers | Algorithms.py:40-44 | the edge set to a list of nodes holds exactly one edge per listed node |
| Flow.FlowSource | Algorithms.py:42-44 | the source maps to exactly {(nodes[i], heavy)} over all i, itself included |
| Flow.FlowMiddle | Algorithms.py:38-41 | for distinct nodes each middle node maps to exactly {(nodes[j], 1) \| 1 ≤ j ≤ n-2} |
| Flow.FlowKeys | Algorithms.py:38-44 | for distinct nodes the last node is not a key, and the keys are nodes[0..n-2] |
| Flow.FlowNetworkShape | Algorithms.py:38-44 | the source maps to exactly {(nodes[i], heavy)} over all i, itself included; for distinct nodes each middle node maps to exactly {(nodes[j], 1) \| 1 ≤ j ≤ n-2}, the last node is not a key, and the keys are nodes[0..n-2] |
| Flow.FlowNodes | Algorithms.py:33-37 | the n nodes start at 0 and follow the get_greater_than chain |
| Flow.FlowNodesDistinct | Algorithms.py:35-37 | when get_greater_than rises the generated nodes are pairwise distinct |
| Flow.LightCore | Algorithms.py:38-41 | the first loop maps every middle node to the light edges of all middle nodes |
| Flow.LightUpToStep | Algorithms.py:38-41 | one more outer round maps the next middle node to the light edges |
| Flow.LinkMiddle | Algorithms.py:39-41 | the inner loop gives one node the light edges to every middle node and changes nothing else |
| Flow.HeavySource | Algorithms.py:42-44 | the second loop (re)assigns the source the heavy edges to every node |
| Flow.FordFulkerson | Algorithms.py:28-47 | for n ≤ 0 line 42 raises IndexError; otherwise the network over the generated nodes, with capacity get_max_value on the source's edges, after max(n, 0) queries |
| Flow.PushRelabel | Algorithms.py:49-51 | returns Kruskal's result: TypeError for n ≥ 1, "" otherwise |
| Flow.Dinic | Algorithms.py:53-55 | returns Kruskal's result |
| Flow.EdmondsKarp | Algorithms.py:57-59 | returns Kruskal's result |
| Flow.Karger | Algorithms.py:61-63 | returns Kruskal's result |
| SpanningTree.Neighbours | Algorithms.py:166-167 | each node's list has one entry per node, (node_j, weight) in generation order |
| SpanningTree.UniformGraph | Algorithms.py:164-167 | every generated node maps to the full list of (node_j, 1) |
| SpanningTree.KruskalNodes | Algorithms.py:158-163 | max(n, 0) nodes, the first being the random draw; the test at line 159 never resets it |
| SpanningTree.KruskalGraphShape | Algorithms.py:161-167 | the keys are the generated nodes; each maps to the list [(node_j, 1)] of length n in generation order; when get_greater_than rises there are exactly n keys |
| SpanningTree.UniformUpToStep | Algorithms.py:164-167 | one more outer round maps the next node to the full neighbour list |
| SpanningTree.ListNeighbours | Algorithms.py:165-167 | the inner loop gives one node the list of (node_j, 1) over all nodes, in order, and changes nothing else |
| SpanningTree.KruskalGraph | Algorithms.py:155-167 | the loops build exactly that adjacency after 1 + max(n, 0) queries |
| SpanningTree.Kruskal | Algorithms.py:154-180 | the formatting raises TypeError whenever the graph has a node (n ≥ 1) and returns "" otherwise |
| SpanningTree.Prim | Algorithms.py:183-185 | returns Kruskal's result |
| SpanningTree.Boruvka | Algorithms.py:187-189 | returns Kruskal's result |
| SpanningTree.ReverseDelete | Algorithms.py:191-193 | returns Kruskal's result |
| ShortestPath.Dijkstra | Algorithms.py:117-119 | returns Kruskal's result |
| ShortestPath.BellmanFord | Algorithms.py:121-123 | returns Kruskal's result |
| ShortestPath.FloydWarshall | Algorithms.py:125-127 | returns Kruskal's result |
| ShortestPath.Johnson | Algorithms.py:129-131 | returns Kruskal's result |
| Traversal.FirstOccurrences | Algorithms.py:94-96 | the key order of a dictionary filled in order: each value at its first occurrence |
| Traversal.FirstOccurrencesKeys | Algorithms.py:96 | the dictionary's key order holds each node once, the same set of nodes |
| Traversal.FirstOccurrencesOfDistinct | Algorithms.py:104 | with distinct nodes the dictionary iterates in generation order |
| Traversal.FirstOccurrencesSnoc | Algorithms.py:96 | inserting a node adds it to the key order only when it is new |
| Traversal.FullGraph | Algorithms.py:94-101 | the dictionary the two loops build: every generated node maps to the set of all generated nodes |
| Traversal.FullGraphComplete | Algorithms.py:98-101 | every generated node's set contains every generated node, itself included |
| Traversal.FleuryNodes | Algorithms.py:93-97 | max(n, 0) nodes from the first character of the minimum value along the get_greater_than chain |
| Traversal.FleuryLines | Algorithms.py:90-115 | when get_greater_than rises the output has one line per node in generation order and every node's set holds all nodes; when set iteration yields each element once, every line lists each of the n nodes exactly once |
| Traversal.AppendingRises | Algorithms.py:94-97 | a string generator ordered by Python's `<` whose get_greater_than appends "a" meets the rising hypothesis |
| Traversal.NameNodes | Algorithms.py:93-97 | the first loop yields the node chain, the dictionary key order and an empty set per node |
| Traversal.Connect | Algorithms.py:99-101 | the inner loop adds every generated node to one node's set and changes nothing else |
| Traversal.ConnectedStep | Algorithms.py:98-101 | one more outer round gives the next node the set of all nodes |
| Traversal.ConnectAll | Algorithms.py:98-101 | the nested loop gives every node the set of all nodes, because the guard at line 100 always holds |
| Traversal.Join | Algorithms.py:106-112 | the neighbours separated by ", ", nothing before the first |
| Traversal.Line | Algorithms.py:105-113 | the node, ": ", the joined neighbours and a newline |
| Traversal.Render | Algorithms.py:103-113 | one line per key, in key order, neighbours in set-iteration order |
| Traversal.FleuryText | Algorithms.py:94-115 | the text rendered from the dictionary's key order over the complete graph |
| Traversal.Format | Algorithms.py:103-113 | the text is one "node: a, b, ...\n" line per key, in key order, neighbours in set order |
| Traversal.Fleury | Algorithms.py:90-115 | IndexError when the minimum value is ""; otherwise the rendered complete graph, after max(n, 0) queries |
| Traversal.Hierholzer | Algorithms.py:133-135 | returns Fleury's result |
| Traversal.TopologicalSort | Algorithms.py:137-139 | returns Fleury's result |
| Traversal.BFS | Algorithms.py:141-143 | returns Fleury's result |
| Traversal.DFS | Algorithms.py:145-148 | returns Fleury's result |
| Matching.Interleave | Algorithms.py:262-264 | interleaving two equal-length lists doubles the length |
| Matching.InterleaveAt | Algorithms.py:262-264 | the first list sits at even positions and the second at odd ones |
| Matching.Lefts | Algorithms.py:254 | the values at even positions of the chain, half as many |
| Matching.Rights | Algorithms.py:256 | the values at odd positions of the chain, half as many |
| Matching.InterleaveSplit | Algorithms.py:253-257 | splitting an interleaving gives back both halves |
| Matching.InterleaveSnoc | Algorithms.py:253-257 | appending one pair to both halves appends it to the interleaving |
| Matching.PairUp | Algorithms.py:258-264 | the dictionary after i rounds: left[i] gets the right list and right[i] the left list, the later write winning on a shared key |
| Matching.PairUpStep | Algorithms.py:259-264 | one more round sets left[i] to the right list and then right[i] to the left list |
| Matching.PairUpKeys | Algorithms.py:258-264 | after i rounds the keys are exactly left[..i] and right[..i] |
| Matching.PairUpDistinct | Algorithms.py:258-264 | with no repeated value each left key maps to the full right list and each right key to the full left list |
| Matching.PairChainDistinct | Algorithms.py:253-257 | when get_greater_than rises the chain the sides are taken from has no repeated value |
| Matching.SidesDistinct | Algorithms.py:253-257 | taking alternate values of a duplicate-free chain gives two sides that share no value |
| Matching.PairChain | Algorithms.py:251-257 | 2·int(n/2) values of the increasing chain from the minimum |
| Matching.Bipartite | Algorithms.py:253-264 | the paired-up dictionary over the even and odd positions of the chain |
| Matching.BipartiteShape | Algorithms.py:249-265 | when get_greater_than rises both sides hold int(n/2) values taken alternately from the chain; left keys map to the right list and right keys to the left list; there are 2·int(n/2) keys |
| Matching.PairNodes | Algorithms.py:253-257 | the first loop alternates left and right along the chain, asking 2·int(n/2) queries |
| Matching.FillingStep | Algorithms.py:262-264 | one more pair of appends extends the partial lists by right[j] and left[j], or the shared list by both when left[i] = right[i] |
| Matching.Round | Algorithms.py:259-264 | one round gives left[i] the right list and right[i] the left list, or the interleaving of both when they are the same key |
| Matching.BuildGraph | Algorithms.py:258-264 | the nested loop builds exactly the paired-up dictionary |
| Matching.HopcroftKarp | Algorithms.py:249-265 | the bipartite graph over the chain, after 2·int(n/2) queries |
| StringMatch.TextAndPattern | Algorithms.py:206-208 | the text is n copies of the character and the pattern int(n/2) copies; the pattern is a prefix of the text |
| StringMatch.TextAndPatternUnique | Algorithms.py:206-208 | any two strings of those lengths made of that character are exactly the result |
| StringMatch.RepeatedBlock | Algorithms.py:205-209 | IndexError when the random value is ""; otherwise the repeated text and pattern of its first character, after one query |
| StringMatch.RabinKarp | Algorithms.py:204-209 | the same result as RepeatedBlock |
| StringMatch.BoyerMoore | Algorithms.py:212-217 | the same result as RepeatedBlock |
| Hashing.Handle | Algorithms.py:303-310 | one drawn value: a new hash is recorded with it; a known hash appends the value and the recorded value to the keys |
| Hashing.Scanned | Algorithms.py:296-310 | the keys and recorded values once the values of a range of queries have been handled in order |
| Hashing.ScanFirsts | Algorithms.py:303-305 | every recorded value carries the hash it is recorded under and is one of the values drawn |
| Hashing.ScanRecorded | Algorithms.py:302-305 | every hash drawn so far is recorded, and it is recorded with the first value drawn with that hash |
| Hashing.ScanPairs | Algorithms.py:309-310 | the key list has even length; each pair collides, and its second key is the value recorded for that hash |
| Hashing.KeysEven | Algorithms.py:309-310 | keys are appended two at a time, so the key list always has even length |
| Hashing.Record | Algorithms.py:304-305 | recording a value with a new hash advances the scan by exactly that value, and the hash set stays the key set of the recorded map |
| Hashing.KeysGrow | Algorithms.py:300 | the key list never shrinks as more values are drawn |
| Hashing.StopLength | Algorithms.py:300-312 | when the search stops as soon as it has n keys (n > 0), it holds n rounded up to even, and no earlier point had n |
| Hashing.SeekCollision | Algorithms.py:303-307 | the inner loop records new hashes and stops on a known hash, or when the draw cap is reached |
| Hashing.Hashmap | Algorithms.py:293-312 | [] when n ≤ 0, with no query; otherwise the keys of the scan over the values drawn, exactly n rounded up to even long, stopping right after the first draw that reached n; CollisionSearchExceeded when the cap is reached |
| PyStrings.IsSpace | acsploit.py:44 | `str.isspace()` for one character, the whitespace `split()` splits on: the C0 separators 0x09-0x0D and 0x1C-0x20, 0x85, 0xA0 and the Unicode spaces |
| PyStrings.SpaceEnd | acsploit.py:44 | the first non-whitespace index at or after i, skipping only whitespace |
| PyStrings.WordEnd | acsploit.py:44 | the first whitespace index at or after i, skipping only non-whitespace |
| PyStrings.Remainder | acsploit.py:44-45 | the text after the first word and the whitespace after it, or "" |
| PyStrings.RemainderOf | acsploit.py:44-45 | for whitespace, a word, whitespace and a rest, the text after the command word is the rest; whitespace alone gives "" |
| PyStrings.FirstWord | acsploit.py:190 | `args.split()[0]` is missing exactly when the argument is whitespace only; otherwise it is a non-empty word without whitespace |
| PyStrings.FirstWordOf | acsploit.py:190 | whitespace, a word and a rest starting with whitespace give exactly that word |
| PyStrings.Clamp | acsploit.py:50-54 | Python's reading of a slice bound or search start: negative counts from the end, and the result is clamped to [0, len] |
| PyStrings.FindFrom | acsploit.py:50 | -1, or the first index at or after i holding the character |
| PyStrings.Find | acsploit.py:50 | `s.find(ch, start)`: -1 exactly when no character at or after the clamped start matches, otherwise a matching index with no match between the clamped start and it |
| PyStrings.Below | acsploit.py:56 | Python's `<` on strings: code point by code point, a proper prefix first |
| PyStrings.BelowExtension | acsploit.py:56 | a string sorts before any of its proper extensions |
| PyStrings.BelowIrreflexive | acsploit.py:56 | no string sorts before itself |
| PyStrings.BelowTransitive | acsploit.py:56 | Python's string order is transitive |
| PyStrings.BelowTotal | acsploit.py:56 | any two different strings are ordered one way or the other |
| PyStrings.Insert | acsploit.py:56 | a string put into its place in a sorted list, nothing changing when it is there |
| PyStrings.InsertMembers | acsploit.py:56 | inserting a string into a list adds exactly that string to its members |
| PyStrings.InsertSorted | acsploit.py:56 | inserting into a strictly sorted list keeps it strictly sorted |
| PyStrings.SortedUnique | acsploit.py:56 | two strictly sorted lists with the same strings are equal |
| PyStrings.Sorted | acsploit.py:56 | `sorted` of a set is strictly sorted and holds exactly the set's strings |
| Completion.Segment | acsploit.py:50-54 | the slice of a matching path from the begin index up to and including the next '/', or to its end |
| Completion.Candidates | acsploit.py:44-54 | the segments of the registered paths that start with the text after the command word |
| Completion.SegmentShape | acsploit.py:50-54 | a completion is the piece of the path from the clamped begin index; it holds '/' only as its last character; it ends in '/' exactly when a '/' follows, and otherwise it is the whole tail |
| Completion.Gathered | acsploit.py:47-54 | the `result_set` the loop fills: the segment of every path in the list that starts with the typed text |
| Completion.GatheredSnoc | acsploit.py:48-54 | one more path adds its segment when it starts with the typed text, and nothing otherwise |
| Completion.ExploitPathComplete | acsploit.py:43-56 | the result is sorted with no duplicates and holds exactly the segments of the registered paths that start with the text after the command word |
| Completion.CompletionsDetermined | acsploit.py:56 | the result is the only sorted, duplicate-free list of those segments |
| Shell.Color | acsploit.py:16-28 | an unknown colour returns the text unchanged; a known one returns its code, the text, then the reset code |
| Shell.ColorRoundTrip | acsploit.py:16-28 | stripping the colour codes gives back the original text |
| Shell.SplitKey | acsploit.py:151-155 | `args.split(' ', 1)` fails exactly when there is no space; otherwise key + " " + value is the argument and the key has no space |
| Shell.ACsploit.constructor | acsploit.py:72-94 | a new session has no exploit, the default input and output, and the input and output options at "string" and "stdout" |
| Shell.ACsploit.UpdateExploit | acsploit.py:202-208 | a registered path becomes the current exploit; any other name leaves the session unchanged |
| Shell.ACsploit.DoUse | acsploit.py:187-193 | an empty argument is a usage error and a whitespace-only one raises IndexError, both leaving the exploit unchanged; otherwise update_exploit of the first word |
| Shell.ACsploit.DoSet | acsploit.py:149-185 | no space gives the usage reply; `set input X` or `set output X` with X unregistered changes nothing, and with X registered installs a fresh instance and records X; any other key is set on the first of exploit, input and output that has it, else nothing changes |
| Shell.ACsploit.SetReply | acsploit.py:152-185 | the reply of `set key val` in the session before the command: Done, or the refusal for an unregistered input or output or an unknown option |
| Shell.ACsploit.UpdatedInput | acsploit.py:157-163 | after `set input val`: a registered name installs a fresh instance and records the name, and nothing else changes; an unregistered one changes nothing |
| Shell.ACsploit.UpdatedOutput | acsploit.py:165-171 | after `set output val`: likewise for the output |
| Shell.ACsploit.UpdatedOption | acsploit.py:173-185 | after `set key val` for another key: the option is set on the first of exploit, input and output that has it, and nothing else changes; otherwise nothing changes |
| Shell.ACsploit.DoRun | acsploit.py:210-217 | run is launched only when both an exploit and an input are set, with the current input and output; in a valid session the missing-input refusal never happens |

## Left out

- Jarvis and Graham (Algorithms.py:221-243) use floating-point trigonometry and `random.random()`.
- Huffman (Algorithms.py:268-280) uses the floating-point Binet formula with truncation.
- The placeholder classes build nothing, so they are not modelled: RecursiveXML, Compression, MatrixOperations and Exponent (Algorithms.py:70-83) have no exploit of their own; KCenter (Algorithms.py:196-199) is commented out; PriorityQueue, RedBlackTree, BTree, BinaryHeap, BinomialHeap and FibonacciHeap (Algorithms.py:328-373) have an exploit that is `pass`.
- The MD5 hash of `Hashmap.hash_function` (Algorithms.py:314-316) is a parameter `hashFn`; the MD5 algorithm is not part of this model.
- Hashing.Hashmap: the birthday loop at Algorithms.py:300-307 has no bound and may run forever. The model takes a draw cap `maxDraws` and fails with CollisionSearchExceeded when the cap is reached, so it proves partial correctness only.
- The generator classes in the `input` module are not part of this model. Their answers are oracles, and the ordering facts are the assumptions `Generator.Rises()` and `Generator.Falls()`. Under Python's string order nothing is below "", so no string generator meets `Falls()`. `Ordering.DescendingShape` also states the decreasing shape under the weaker hypothesis that only the answers actually received fell.
- A generator of the wrong kind makes some constructors raise TypeError, and the model leaves that out. Examples: adding 1 to a string in a generator, or indexing `[0]` on a number. FordFulkerson is typed to integer nodes and Fleury, RabinKarp and BoyerMoore to string values.
- A generator can run out of values, and the model leaves that out: the oracles are total.
- Flow.FordFulkerson: the returned dictionary is a map, so its key order is not modelled. Fleury's text does depend on key order, and that order is modelled.
- Matching.HopcroftKarp: the returned dictionary's key order is not modelled, for the same reason.
- PyBuiltins.TruncHalf: `int(n / 2)` goes through a float, and the model is exact only for |n| < 2^53.
- Set iteration order, which Fleury's text lists neighbours in, is a parameter `order`, because CPython's hash table decides it.
- The `print` at Algorithms.py:46 is console output.
- All console output, including `print_options`, `do_options`, `do_show` and the messages of `set`, `use` and `run`, is replaced by `Reply` values.
- The prompt redraw in `update_exploit` (acsploit.py:204) is console output.
- The cmd2 setup (acsploit.py:96-112) belongs to the command framework.
- Module discovery through `pkgutil`, `vars(input)` and `vars(output)` (acsploit.py:74-90, 114-125) becomes the constructor's registry arguments.
- The history file and the main loop (acsploit.py:220-229) are I/O.
- The `Options` class and the option tables of inputs, outputs and exploits are plain maps. The generators' `set_option` is modelled as storing the value.
- Shell.ACsploit.DoRun: the exploit's own `run` is not part of this model, so the method returns what would be launched.
