# redis-topology-info, modelled in Dafny

`redis-topology-info` is a small Go shell. It reads seed Redis instances
("host port" lines) from standard input and discovers each seed's replicas
recursively from the `INFO replication` text. It then prints any INFO
category for every node of the resulting forest, as an indented tree.
Under each node it prints the data lines (not empty, not `#` headers)
that start with a typed argument, once per matching argument. With no
argument it prints every data line, except for the replication category,
which then prints none.

This project models the logic of `main.go` once the Redis client, the
resolver and the terminal are abstracted away. It has six modules:

- `Common`: `Option`, the `Fault` a fatal error stands for, `Result`, and
  `Prepend`, which adds the children found so far to a list that may
  have failed.
- `Text`: the parts of Go's `strings` and `strconv` that the program relies
  on: `Split`, `HasPrefix`, `TrimSpace`, `Fields`, `Atoi`, and `%d`
  formatting.
- `LineFilter`: the closure returned by `callWrapper`. It decides which
  lines of a node's INFO text are printed, and how often.
- `Topology`: the replica-line pattern, `getSlaves` (recursive replica
  discovery) and `readRedisOpiton` (seed reading).
- `Walker`: `spaces` and `commandRecursive`, the depth-first print of the
  forest.
- `Commands`: `processLine` and the nine category methods of `command`.

Every Go loop is a Dafny `method` whose `ensures` equates its result with
a specification function. The properties the program promises are lemmas
about those functions.

External effects become parameters:

- The INFO call (`commandText`) is a `Fetcher`, from (category, host, port)
  to the raw text or a failure.
- `net.LookupHost` is a `Resolver`.
- Standard input is the sequence of its lines.
- Printing is the sequence of printed lines.
- `log.Fatalln` is a `Fault`. The process stops there, and what was already
  printed stays printed.

The replica pattern `slave[0-9]*:ip=(.*),port=([0-9]+),state=([a-z]+).*` is
not a general regular expression engine. It is a hand-written matcher for
this one shape, with the semantics of Go's `regexp`:

- the match is the leftmost one;
- among matches starting there, the ip capture is the longest, because
  `(.*)` is greedy;
- `.` does not match a newline;
- the trailing `.*` constrains nothing.

## Behaviour worth knowing

What `main.go` does in cases a reader might not expect:

- The state capture is `[a-z]+`, so it keeps only the leading lower-case
  letters. A replica reporting `state=send_bulk` is labelled `…:send`, not
  `…:send_bulk` (`Topology.TailAtIff`, `Topology.SendBulkReadAsSend`).
- The line filter prints a line once for every argument it starts with, so
  a line matching two arguments prints twice. It is not a keep/drop
  predicate (`LineFilter.PrintedOncePerMatchingArg`).
- An unrecognised first word runs `replication` with the words after it,
  and the word itself is dropped (`Commands.UnknownVerb`).
- Splitting at single blanks makes two blanks in a row an empty argument.
  Every line starts with the empty string, so that argument prints every
  data line (`Commands.DoubleBlank`, `Commands.EmptyArgumentShowsAll`).
- A seed's label uses the host as typed, not its resolved address
  (main.go:61). Its replicas are also asked for under the typed host
  (main.go:62). Only `Ip` holds the first resolved address. The branch at
  main.go:55-59 is overwritten by line 61 and is not modelled.
- Discovery has no depth bound in the code (see "Left out").

## Model

| member | source | states |
|---|---|---|
| LineFilter.CallWrapper | main.go:181-198 | the nested loops print exactly `Emitted`: for each line in order, nothing for a dropped line, one echo `indent+"+"+line` per argument it starts with, or one echo when there are no arguments and showAll is set |
| LineFilter.DroppedLinesIgnored | main.go:184-186 | removing empty and `#` lines from the input leaves the output unchanged: such lines never print |
| LineFilter.ShowAllPrintsSurvivors | main.go:187-190 | with no arguments and showAll, every surviving line is printed exactly once, in input order, as `indent+"+"+line` |
| LineFilter.NoArgumentsHideAll | main.go:187-195 | with no arguments and showAll false, nothing is printed |
| LineFilter.PrintedIffKept | main.go:183-196 | `indent+"+"+line` is printed iff the line is in the input, is neither empty nor a header, and either (no arguments and showAll) or some argument is a prefix of it |
| LineFilter.PrintedOncePerMatchingArg | main.go:191-195 | with arguments, a surviving line is printed (occurrences in the input) × (number of arguments it starts with) times |
| LineFilter.EchoesCount | main.go:191-195 | the inner loop prints one identical copy of the line per matching argument |
| LineFilter.EmittedAppend | main.go:183-196 | the output for `a + b` is the output for `a` followed by the output for `b`, so the input order is kept |
| LineFilter.EmittedIndented | main.go:188-193 | every printed line starts with the indent followed by `+` |
| LineFilter.EchoInjective | main.go:188-193 | two lines print the same text iff they are the same line |
| Text.Split | main.go:129 | `strings.Split` at one character: at least one piece, no piece holds the separator, and joining the pieces with it gives back the text |
| Text.SplitUnique | main.go:218 | those three facts fix the pieces: Split is the only such decomposition |
| Text.TrimSpace | main.go:34 | the result is the text without its leading and trailing white space, and is empty or starts and ends with a non-space |
| Text.Fields | main.go:38 | every field is non-empty and space-free, and the fields concatenate to the text with its white space removed |
| Text.FieldsAtSpace | main.go:38 | a white-space character splits the fields: `Fields(a + c + b) == Fields(a) + Fields(b)` |
| Text.Atoi | main.go:43 | `strconv.Atoi` succeeds exactly on an optional sign followed by at least one digit, with the sign of the result following the sign character |
| Text.AtoiSigned | main.go:43 | a sign before a non-empty run of digits parses: `+d` to the value of d and `-d` to its negation, so seed ports such as `+6379` or `-007` have a defined value |
| Text.AtoiDigits | main.go:81-84 | a non-empty run of digits always parses, to its decimal value |
| Text.FormatNat | main.go:89 | `%d` of a natural number: non-empty digits whose decimal value is the number, with no leading zero |
| Text.AtoiFormatInt | main.go:89 | reading back the port printed in a label gives the port |
| Topology.HeadAtIff | main.go:71 | `slave[0-9]*:ip=` is found at i, with the ip capture starting at j, iff the text from i to j is `slave`, then only digits, then `:ip=` |
| Topology.TailAtIff | main.go:71 | the tail reads port p and state st at k iff the text there is `,port=`p`,state=`st with p non-empty digits and st the whole non-empty run of lower-case letters, so whatever follows that run is dropped |
| Topology.TailAt | main.go:71 | the `,port=([0-9]+),state=([a-z]+)` part: the port capture is a non-empty run of digits, the state a non-empty run of lower-case letters |
| Topology.LastTail | main.go:71 | the greedy `(.*)`: the largest end in range after which the tail matches, and no later one matches |
| Topology.MatchAtLongest | main.go:71 | at a start position, a match is found iff one exists there, and then the one with the longest ip capture |
| Topology.LeftmostSkipsNothing | main.go:76 | the search skips only positions where nothing matches, so its match is the leftmost one |
| Topology.FindSubmatch | main.go:76-79 | the captures found have a digit port, a lower-case state and an ip without newline |
| Topology.FindSubmatchLeftmostLongest | main.go:71-79 | `FindStringSubmatch` succeeds iff the pattern matches somewhere, and then returns the groups of the leftmost match with the longest ip capture |
| Topology.MatchOfText | main.go:71-79 | a line that reads `slave<digits>:ip=`, an ip without newline, then a tail with no further `,port=` after it, yields that ip, port and state; whatever else follows is ignored by the trailing `.*` |
| Topology.ReplicaLineCaptures | main.go:71-79 | the replica line `slave<d>:ip=<ip>,port=<p>,state=<st><r>` (`ReplicaLine`) yields (ip, p, st) when d and p are digits, st is the whole lower-case run and no `,port=` starts in r (so trailing fields such as `,offset=14,lag=0` are allowed) |
| Topology.OnlineReplicaLine | main.go:71-79 | the line Redis sends, `slave0:ip=10.0.0.2,port=6380,state=online,offset=14,lag=0`, yields ip `10.0.0.2`, port `6380` and state `online`; the later fields are ignored |
| Topology.SendBulkReadAsSend | main.go:71-79 | `slave1:ip=10.0.0.3,port=6380,state=send_bulk` yields ip `10.0.0.3`, port `6380` and state `send` |
| Topology.ReplicaOf | main.go:73-79 | a line yields a replica only when it starts with `slave`, and its port is then all digits |
| Topology.LabelFields | main.go:89 | a label `host:port:state` with no `:` in host or state cuts at its colons into host, the port's numeral and state, and Atoi reads the port back from the numeral |
| Topology.GetSlaves | main.go:68-94 | fetches the replication text and returns exactly `Slaves`: the replicas discovered from host:port, or the first fault |
| Topology.ReadReplicas | main.go:72-92 | the loop over the replication lines returns exactly `SlavesOf` of those lines |
| Topology.SlavesOfShape | main.go:72-91 | on success, one child per replica line in line order, carrying the captured ip, the port Atoi reads, the label `ip:port:state`, and its own discovered replicas |
| Topology.SlavesOfFailsOnlyBelow | main.go:80-91 | the children of a text fail iff the discovery below some replica line fails: other lines are skipped without error |
| Topology.ReplicasWellFormed | main.go:71-84 | every replica line's port capture is all digits, so the fatal branch after `Atoi` is unreachable |
| Topology.SlavesDepth | main.go:90 | a discovered tree is less deep than the recursion bound |
| Topology.SlavesFuelMonotone | main.go:90 | the bound only limits recursion: any outcome other than running out of the bound (a tree or a fetch, port or address fault) is the same under a larger bound |
| Topology.ReadRedisOptions | main.go:30-66 | the loop over the input lines returns exactly `Seeds`: the seed forest, or the first fault |
| Topology.SeedLines | main.go:34-41 | the lines kept as seeds have at least two fields; blank and one-field lines are skipped |
| Topology.SeedNodeOk | main.go:42-63 | a built seed root has the first resolved address, the port of the second field, the label `host:port:online` with the typed host, and the replicas discovered under the typed host |
| Topology.SeedsShape | main.go:33-65 | on success, one root per seed line, in order, each as SeedNodeOk describes |
| Topology.BadPortFails | main.go:43-46 | a seed line whose port field Atoi rejects makes reading the seeds fail |
| Walker.Pad | main.go:96-102 | n blanks: length n, every character a blank |
| Walker.Spaces | main.go:96-102 | the loop builds `Pad(n)`, and nothing when n is not positive |
| Walker.CommandRecursive | main.go:104-118 | the loop and recursion print, fetch and fail exactly as `Walk` |
| Walker.WalkFetchesIffNonEmpty | main.go:105-108 | an empty forest prints only "not found redis master/slave info" and fetches nothing; a non-empty one fetches |
| Walker.Prefix | main.go:113-115 | the prefix at depth d is 3d characters wide |
| Walker.PrefixShape | main.go:113-115 | the prefix is empty exactly at the roots; deeper down it is blanks ending in a single `├──` |
| Walker.WalkIsPreorder | main.go:109-117 | the walk is the preorder list of nodes: each node behind the prefix of its depth, its data lines, then its replicas, then its later siblings |
| Walker.WalkFromRoots | main.go:104-117 | a walk from the roots with an empty prefix is that preorder list at depth 0 |
| Walker.RunEntriesStops | main.go:109-128 | the walk fails iff some node does not answer; it then stops with that node's fault, after fetching every node up to it, in preorder |
| Walker.RunEntriesFault | main.go:109-128 | the walk's fault is none iff every node answers, else the fault of the first node that does not |
| Walker.RunEntriesFetched | main.go:109-128 | the walk fetches the nodes that answer, in preorder, and then the first one that does not |
| Walker.RunEntriesFailurePrints | main.go:109-128 | when a node does not answer, the output is the blocks of the nodes before it in preorder followed by that node's label, and nothing after it |
| Walker.RunEntriesPrints | main.go:111-113 | when every node answers, the output is each node's label behind a 3d-wide prefix followed by its lines filtered with indent 3d+2 |
| Commands.ShowAll | main.go:136-179 | every category shows all lines by default except replication |
| Commands.Verb | main.go:223-244 | a known verb selects its own category; any other word selects replication |
| Commands.VerbOfName | main.go:223-241 | no two categories share a verb |
| Commands.Query | main.go:136-179 | a category method walks the forest from the roots with the filter for its arguments and its showAll flag |
| Commands.ProcessLine | main.go:217-245 | the typed line runs the category of its first word with the remaining words as arguments |
| Commands.KnownVerb | main.go:218-241 | a known verb followed by a blank runs its category with the blank-separated rest |
| Commands.BareVerb | main.go:218-241 | a verb typed alone runs its category with no arguments |
| Commands.UnknownVerb | main.go:242-243 | any other first word runs replication with the words after it: the word is dropped |
| Commands.ReplicationHidesLines | main.go:141-144 | replication with no arguments prints no data line |
| Commands.OthersShowLines | main.go:136-139 | any other category with no arguments prints every surviving line once, in order |
| Commands.EmptyArgumentShowsAll | main.go:191-195 | with an empty argument, a line is printed iff it is in the input and is neither empty nor a header |
| Commands.DoubleBlank | main.go:218 | a verb followed by two blanks gets an empty first argument |

## Left out

- `commandText` (main.go:120-130): the Redis client, the `Options.Auth`
  password and the INFO wire call are the `Fetcher` parameter. Only the
  final `strings.Split` at `\n` is modelled.
- `net.LookupHost` (main.go:47) is the `Resolver` parameter. Reading
  standard input (main.go:31-33) is the sequence of its lines.
- `log.Fatalln` (main.go:45, 49, 83, 127) is a `Fault` returned or recorded
  in the walk's `Run`. Process exit itself is not modelled.
- Topology.GetSlaves: takes a recursion bound (`fuel`) that the source does
  not have, and reports `DepthExceeded` when it runs out, because discovery
  in the source has no cycle detection and need not terminate. Seeds
  discovered within the bound are the source's trees
  (`Topology.SlavesFuelMonotone`).
- Text.Atoi: integers are unbounded, so `strconv.Atoi`'s range error on
  values outside 64 bits is not modelled.
- Walker.Spaces: the width of a prefix is its length in characters. The
  source counts runes, which is the same for a sequence of characters.
- Commands.Query: the nine methods of `command` (main.go:136-179) differ
  only in their category and showAll flag, so they are one method
  parameterised by `Category`.
- Commands.Filter: the closure `callWrapper` returns is a Dafny function
  value built from `LineFilter.Emitted`. `LineFilter.CallWrapper` is the
  same loop as a method, proved equal to it.
- `processLine`'s `len(args) == 0` check (main.go:219-221) cannot fire,
  because `strings.Split` always returns at least one piece.
- The go-prompt completer, the interactive loop, the cobra wiring and
  `cobraWapper` (main.go:200-215, 247-291) are user-interface plumbing.
  They are not part of this model.
