/**
 * The commands of the shell: processLine splits the typed line at single
 * blanks, picks a category from the first token, and the category's method
 * walks the whole forest with the line filter built for the remaining
 * tokens. Every category shows all lines by default except replication.
 */
module Commands {
  import opened Common
  import opened Text
  import opened LineFilter
  import opened Topology
  import opened Walker

  /** The nine INFO sections the shell can show, one per method of `command`. */
  datatype Category = Memory | Replication | Server | Clients | Persistence | Stats | Cpu | Cluster | Keyspace

  /** The verb that selects the category, which is also the INFO section it asks for. */
  function Name(c: Category): string {
    match c
    case Memory => "memory"
    case Replication => "replication"
    case Server => "server"
    case Clients => "clients"
    case Persistence => "persistence"
    case Stats => "stats"
    case Cpu => "cpu"
    case Cluster => "cluster"
    case Keyspace => "keyspace"
  }

  /** The showAll flag each category passes to callWrapper: only replication hides lines by default. */
  function ShowAll(c: Category): (r: bool)
    ensures r <==> c != Replication
  {
    match c
    case Memory => true
    case Replication => false
    case Server => true
    case Clients => true
    case Persistence => true
    case Stats => true
    case Cpu => true
    case Cluster => true
    case Keyspace => true
  }

  /** The switch of processLine: a known verb selects its category, anything else replication. */
  function Verb(token: string): (c: Category)
    ensures (exists k :: Name(k) == token) ==> Name(c) == token
    ensures (forall k :: Name(k) != token) ==> c == Replication
  {
    if token == "memory" then Memory
    else if token == "replication" then Replication
    else if token == "server" then Server
    else if token == "clients" then Clients
    else if token == "persistence" then Persistence
    else if token == "stats" then Stats
    else if token == "cpu" then Cpu
    else if token == "cluster" then Cluster
    else if token == "keyspace" then Keyspace
    else Replication
  }

  /** Each verb selects its own category: no two categories share a verb. */
  lemma VerbOfName(c: Category)
    ensures Verb(Name(c)) == c
  {
  }

  /** The closure callWrapper returns: the line filter for these arguments and this flag. */
  function Filter(args: seq<string>, showAll: bool): Printer {
    (indent: string, lines: seq<string>) => Emitted(args, showAll, indent, lines)
  }

  /** A typed line, read: the category it selects and the prefix arguments after the first token. */
  datatype Invocation = Invocation(category: Category, args: seq<string>)

  function Parse(line: string): Invocation {
    var tokens := Split(line, ' ');
    Invocation(Verb(tokens[0]), tokens[1..])
  }

  /** What one category method prints for the forest: commandRecursive from the roots with its filter. */
  function Show(fetch: Fetcher, redis: seq<Node>, c: Category, args: seq<string>): Run {
    Walk(fetch, Name(c), Filter(args, ShowAll(c)), "", redis)
  }

  /** The nine methods of `command`, which differ only in their category. */
  method Query(fetch: Fetcher, redis: seq<Node>, c: Category, args: seq<string>)
    returns (out: seq<string>, fetched: seq<(string, int)>, fault: Option<Fault>)
    ensures Run(out, fetched, fault) == Show(fetch, redis, c, args)
  {
    var call := Filter(args, ShowAll(c));
    out, fetched, fault := CommandRecursive(fetch, Name(c), "", redis, call);
  }

  /** processLine: split the line at blanks and run the category the first token selects. */
  method ProcessLine(fetch: Fetcher, redis: seq<Node>, line: string)
    returns (out: seq<string>, fetched: seq<(string, int)>, fault: Option<Fault>)
    ensures Run(out, fetched, fault) == Show(fetch, redis, Parse(line).category, Parse(line).args)
  {
    var args := Split(line, ' ');
    var c := Verb(args[0]);
    out, fetched, fault := Query(fetch, redis, c, args[1..]);
  }

  // ---------------------------------------------------------------------------
  // What a typed line does

  /** A known verb followed by a blank runs its category with the blank-separated rest as arguments. */
  lemma KnownVerb(c: Category, rest: string)
    ensures Parse(Name(c) + " " + rest) == Invocation(c, Split(rest, ' '))
  {
    SplitAfterWord(Name(c), ' ', rest);
    VerbOfName(c);
  }

  /** A verb typed alone runs its category with no arguments. */
  lemma BareVerb(c: Category)
    ensures Parse(Name(c)) == Invocation(c, [])
  {
    SplitOfWord(Name(c), ' ');
    VerbOfName(c);
  }

  /**
   * Any other first token runs replication, and the token itself is dropped:
   * the arguments are the words after it.
   */
  lemma UnknownVerb(token: string, rest: string)
    requires ' ' !in token
    requires forall k :: Name(k) != token
    ensures Parse(token + " " + rest) == Invocation(Replication, Split(rest, ' '))
  {
    SplitAfterWord(token, ' ', rest);
  }

  /** Without arguments, replication prints nothing but the node labels. */
  lemma ReplicationHidesLines(indent: string, lines: seq<string>)
    ensures Filter([], ShowAll(Replication))(indent, lines) == []
  {
    NoArgumentsHideAll(indent, lines);
  }

  /** Without arguments, every other category prints every line that is neither a header nor blank, in order. */
  lemma OthersShowLines(c: Category, indent: string, lines: seq<string>)
    requires c != Replication
    ensures Filter([], ShowAll(c))(indent, lines)
         == seq(|Surviving(lines)|, k requires 0 <= k < |Surviving(lines)| => Echo(indent, Surviving(lines)[k]))
  {
    ShowAllPrintsSurvivors(true, indent, lines);
  }

  /**
   * Two blanks in a row give an empty argument, and every line starts with
   * the empty string: with such an argument every data line is printed.
   */
  lemma EmptyArgumentShowsAll(args: seq<string>, showAll: bool, indent: string, lines: seq<string>, line: string)
    requires "" in args
    ensures Echo(indent, line) in Filter(args, showAll)(indent, lines) <==> line in lines && !Dropped(line)
  {
    PrintedIffKept(args, showAll, indent, lines, line);
    var j :| 0 <= j < |args| && args[j] == "";
    assert HasPrefix(line, args[j]);
  }

  /** A verb followed by two blanks: the first argument is empty. */
  lemma DoubleBlank(c: Category, rest: string)
    ensures Parse(Name(c) + "  " + rest) == Invocation(c, [""] + Split(rest, ' '))
  {
    var tail := " " + rest;
    assert Split(tail, ' ') == [""] + Split(rest, ' ') by {
      assert "" + [' '] + rest == tail;
      SplitAfterWord("", ' ', rest);
    }
    assert Name(c) + "  " + rest == Name(c) + " " + tail;
    KnownVerb(c, tail);
  }
}
