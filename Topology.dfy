/**
 * Topology discovery: the seed list read by readRedisOpiton and the replica
 * tree grown by getSlaves from each node's `INFO replication` text.
 *
 * The INFO call and host-name resolution are parameters (a Fetcher and a
 * Resolver). The one regular expression the builder uses,
 *     slave[0-9]*:ip=(.*),port=([0-9]+),state=([a-z]+).*
 * is matched by a hand-written search with the semantics of Go's regexp
 * package: the leftmost match wins, and among matches starting there the
 * greedy `(.*)` takes the longest capture for which the rest still matches
 * (`.` does not match a newline).
 */
module Topology {
  import opened Common
  import opened Text

  /** One store instance (RedisOpiton): its address, port, display text and replicas. */
  datatype Node = Node(ip: string, port: int, showText: string, slaves: seq<Node>)

  /** The INFO call: (category, host, port) to the raw reply text, or None when it fails. */
  type Fetcher = (string, string, int) -> Option<string>

  /** Host-name resolution: the addresses of a host, or None when the lookup fails. */
  type Resolver = string -> Option<seq<string>>

  const ReplicationCategory := "replication"
  const ReplicaMarker := "slave"
  const OnlineState := "online"

  /** The display text of a node: "<host>:<port>:<state>". */
  function Label(host: string, port: int, state: string): string {
    host + ":" + FormatInt(port) + ":" + state
  }

  /**
   * A label reads back into its three fields when the host and the state
   * hold no ':' (an IPv4 address, a lower-case state): cut at the colons it
   * gives the host, the port's numeral, from which Atoi recovers the port,
   * and the state.
   */
  lemma LabelFields(host: string, port: int, state: string)
    requires ':' !in host && ':' !in state
    ensures Split(Label(host, port, state), ':') == [host, FormatInt(port), state]
    ensures Atoi(Split(Label(host, port, state), ':')[1]) == Some(port)
  {
    var n := FormatInt(port);
    assert ':' !in n by {
      var digits := if port < 0 then n[1..] else n;
      assert AllDigits(digits);
      forall m | 0 <= m < |n| ensures n[m] != ':' {
        if port < 0 && m > 0 {
          assert n[m] == digits[m - 1];
        }
      }
    }
    assert Label(host, port, state) == host + [':'] + (n + [':'] + state);
    SplitAfterWord(host, ':', n + [':'] + state);
    SplitAfterWord(n, ':', state);
    SplitOfWord(state, ':');
    AtoiFormatInt(port);
  }

  // ---------------------------------------------------------------------------
  // The replica-line pattern

  predicate IsLower(c: char) {
    'a' <= c <= 'z'
  }

  predicate NotNewline(c: char) {
    c != '\n'
  }

  /** The end of the longest run of characters satisfying `p` that starts at `i`. */
  function RunEnd(s: string, i: nat, p: char -> bool): (j: nat)
    requires i <= |s|
    ensures i <= j <= |s|
    ensures forall k :: i <= k < j ==> p(s[k])
    ensures j < |s| ==> !p(s[j])
    decreases |s| - i
  {
    if i < |s| && p(s[i]) then RunEnd(s, i + 1, p) else i
  }

  /**
   * "slave[0-9]*:ip=" at position i: where the ip capture starts. The digit
   * run is taken whole, as no digit can match the ':' that follows it.
   */
  function HeadAt(s: string, i: nat): (r: Option<nat>)
    requires i <= |s|
    ensures r.Some? ==> i + 9 <= r.value <= |s|
  {
    if i + 5 <= |s| && s[i..i + 5] == ReplicaMarker then
      var d := RunEnd(s, i + 5, IsDigit);
      if d + 4 <= |s| && s[d..d + 4] == ":ip=" then Some(d + 4) else None
    else None
  }

  datatype Tail = Tail(port: string, state: string)

  /**
   * ",port=([0-9]+),state=([a-z]+).*" at position k. Both runs are taken
   * whole: the digits because ',' must follow them, the letters because the
   * trailing `.*` accepts whatever follows.
   */
  function TailAt(s: string, k: nat): (r: Option<Tail>)
    requires k <= |s|
    ensures r.Some? ==> |r.value.port| > 0 && AllDigits(r.value.port)
    ensures r.Some? ==> |r.value.state| > 0 && forall c :: c in r.value.state ==> IsLower(c)
  {
    if k + 6 <= |s| && s[k..k + 6] == ",port=" then
      var pe := RunEnd(s, k + 6, IsDigit);
      if pe > k + 6 && pe + 7 <= |s| && s[pe..pe + 7] == ",state=" then
        var se := RunEnd(s, pe + 7, IsLower);
        if se > pe + 7 then Some(Tail(s[k + 6..pe], s[pe + 7..se])) else None
      else None
    else None
  }

  /** The pattern matches with the match starting at i and the ip capture ending at k. */
  predicate Candidate(s: string, i: nat, k: nat) {
    && i <= |s| && k <= |s|
    && HeadAt(s, i).Some?
    && HeadAt(s, i).value <= k
    && (forall m :: HeadAt(s, i).value <= m < k ==> s[m] != '\n')
    && TailAt(s, k).Some?
  }

  /** The three capture groups of the match (i, k). */
  datatype Submatch = Submatch(ip: string, port: string, state: string)

  function Groups(s: string, i: nat, k: nat): Submatch
    requires Candidate(s, i, k)
  {
    Submatch(s[HeadAt(s, i).value..k], TailAt(s, k).value.port, TailAt(s, k).value.state)
  }

  /** The greedy choice for the ip capture: the largest k in [lo, hi] after which the tail matches. */
  function LastTail(s: string, lo: nat, hi: nat): (r: Option<nat>)
    requires lo <= hi <= |s|
    ensures r.Some? ==> lo <= r.value <= hi && TailAt(s, r.value).Some?
    ensures r.Some? ==> forall k :: r.value < k <= hi ==> TailAt(s, k).None?
    ensures r.None? ==> forall k :: lo <= k <= hi ==> TailAt(s, k).None?
    decreases hi - lo
  {
    if TailAt(s, hi).Some? then Some(hi)
    else if hi == lo then None
    else LastTail(s, lo, hi - 1)
  }

  /** The end of the ip capture for a match starting at i, if there is one: the longest (see MatchAtLongest). */
  function MatchAt(s: string, i: nat): (r: Option<nat>)
    requires i <= |s|
    ensures r.Some? ==> r.value <= |s|
  {
    match HeadAt(s, i)
    case None => None
    case Some(start) => LastTail(s, start, RunEnd(s, start, NotNewline))
  }

  /** MatchAt finds a match at i exactly when there is one, and then the one with the longest ip capture. */
  lemma MatchAtLongest(s: string, i: nat)
    requires i <= |s|
    ensures MatchAt(s, i).Some? ==> Candidate(s, i, MatchAt(s, i).value)
    ensures MatchAt(s, i).Some? ==> forall k :: MatchAt(s, i).value < k ==> !Candidate(s, i, k)
    ensures MatchAt(s, i).None? ==> forall k :: !Candidate(s, i, k)
  {
    if HeadAt(s, i).Some? {
      var start := HeadAt(s, i).value;
      var limit := RunEnd(s, start, NotNewline);
      forall k: nat | Candidate(s, i, k) ensures k <= limit {
        RunEndCovers(s, start, k, NotNewline);
      }
    }
  }

  /** A run of characters satisfying `p` from i to k lies within the longest such run. */
  lemma {:induction false} RunEndCovers(s: string, i: nat, k: nat, p: char -> bool)
    requires i <= k <= |s|
    requires forall m :: i <= m < k ==> p(s[m])
    ensures k <= RunEnd(s, i, p)
    decreases k - i
  {
    if i < k {
      RunEndCovers(s, i + 1, k, p);
    }
  }

  /** A run that cannot be extended is the longest run. */
  lemma RunEndIs(s: string, i: nat, j: nat, p: char -> bool)
    requires i <= j <= |s|
    requires forall m :: i <= m < j ==> p(s[m])
    requires j == |s| || !p(s[j])
    ensures RunEnd(s, i, p) == j
  {
    RunEndCovers(s, i, j, p);
  }

  /** The text "slave<digits>:ip=" lies between i and j. */
  predicate HeadText(s: string, i: nat, j: nat) {
    && i + 9 <= j <= |s|
    && s[i..i + 5] == ReplicaMarker
    && AllDigits(s[i + 5..j - 4])
    && s[j - 4..j] == ":ip="
  }

  /** HeadAt finds the end j of the head at i exactly when the text there is "slave<digits>:ip=" up to j. */
  lemma HeadAtIff(s: string, i: nat, j: nat)
    requires i <= |s|
    ensures HeadAt(s, i) == Some(j) <==> HeadText(s, i, j)
  {
    if HeadAt(s, i) == Some(j) {
      var d := RunEnd(s, i + 5, IsDigit);
      assert d == j - 4;
      var ds := s[i + 5..j - 4];
      assert AllDigits(ds) by {
        forall m | 0 <= m < |ds| ensures IsDigit(ds[m]) {
          assert ds[m] == s[i + 5 + m];
        }
      }
    }
    if HeadText(s, i, j) {
      assert s[j - 4] == s[j - 4..j][0] == ':';
      forall m | i + 5 <= m < j - 4 ensures IsDigit(s[m]) {
        assert s[m] == s[i + 5..j - 4][m - (i + 5)];
      }
      RunEndIs(s, i + 5, j - 4, IsDigit);
    }
  }

  /**
   * The text ",port=<p>,state=<st>" starts at k, with p a non-empty run of
   * digits and st the whole non-empty run of lower-case letters there.
   */
  predicate TailText(s: string, k: nat, p: string, st: string) {
    var pe := k + 6 + |p|;
    var e := pe + 7 + |st|;
    && e <= |s|
    && s[k..k + 6] == ",port=" && s[k + 6..pe] == p
    && s[pe..pe + 7] == ",state=" && s[pe + 7..e] == st
    && |p| > 0 && AllDigits(p)
    && |st| > 0 && (forall c :: c in st ==> IsLower(c))
    && (e == |s| || !IsLower(s[e]))
  }

  /**
   * TailAt reads port p and state st at k exactly when the text there is
   * ",port=<p>,state=<st>" with st the whole lower-case run: a state
   * "send_bulk" is read as "send".
   */
  lemma TailAtIff(s: string, k: nat, p: string, st: string)
    requires k <= |s|
    ensures TailAt(s, k) == Some(Tail(p, st)) <==> TailText(s, k, p, st)
  {
    if TailAt(s, k) == Some(Tail(p, st)) {
      TailAtText(s, k);
    }
    if TailText(s, k, p, st) {
      TextTailAt(s, k, p, st);
    }
  }

  lemma TailAtText(s: string, k: nat)
    requires k <= |s| && TailAt(s, k).Some?
    ensures TailText(s, k, TailAt(s, k).value.port, TailAt(s, k).value.state)
  {
  }

  lemma TextTailAt(s: string, k: nat, p: string, st: string)
    requires TailText(s, k, p, st)
    ensures TailAt(s, k) == Some(Tail(p, st))
  {
    var pe := k + 6 + |p|;
    var e := pe + 7 + |st|;
    forall m | k + 6 <= m < pe ensures IsDigit(s[m]) {
      assert s[m] == p[m - (k + 6)];
    }
    RunEndIs(s, k + 6, pe, IsDigit);
    forall m | pe + 7 <= m < e ensures IsLower(s[m]) {
      assert s[m] == st[m - (pe + 7)];
    }
    RunEndIs(s, pe + 7, e, IsLower);
  }

  /** The first position from i to n where `m` finds something, with what it found there. */
  function Leftmost(m: nat -> Option<nat>, i: nat, n: nat): (r: Option<(nat, nat)>)
    requires i <= n
    ensures r.Some? ==> i <= r.value.0 <= n && m(r.value.0) == Some(r.value.1)
    decreases n - i
  {
    match m(i)
    case Some(k) => Some((i, k))
    case None => if i == n then None else Leftmost(m, i + 1, n)
  }

  /** Leftmost skips only positions where `m` finds nothing. */
  lemma {:induction false} LeftmostSkipsNothing(m: nat -> Option<nat>, i: nat, n: nat)
    requires i <= n
    ensures Leftmost(m, i, n).Some? ==> forall i' :: i <= i' < Leftmost(m, i, n).value.0 ==> m(i').None?
    ensures Leftmost(m, i, n).None? ==> forall i' :: i <= i' <= n ==> m(i').None?
    decreases n - i
  {
    if m(i).None? && i < n {
      LeftmostSkipsNothing(m, i + 1, n);
    }
  }

  /** MatchAt at every position of s. */
  function Matches(s: string): nat -> Option<nat> {
    (j: nat) => if j <= |s| then MatchAt(s, j) else None
  }

  /**
   * regexp.FindStringSubmatch for the replica pattern: the captures of the
   * leftmost match, with the longest ip capture among matches starting
   * there (see FindSubmatchLeftmostLongest). The captured port is a
   * non-empty run of digits and the state a non-empty run of lower-case
   * letters; the ip contains no newline.
   */
  function FindSubmatch(s: string): (r: Option<Submatch>)
    ensures r.Some? ==> && |r.value.port| > 0 && AllDigits(r.value.port)
                        && |r.value.state| > 0 && (forall c :: c in r.value.state ==> IsLower(c))
                        && '\n' !in r.value.ip
  {
    match Leftmost(Matches(s), 0, |s|)
    case None => None
    case Some((i, k)) =>
      MatchAtLongest(s, i);
      var g := Groups(s, i, k);
      assert forall c :: c in g.ip ==> c != '\n' by {
        forall c | c in g.ip ensures c != '\n' {
          var m :| 0 <= m < |g.ip| && g.ip[m] == c;
          assert c == s[HeadAt(s, i).value + m];
        }
      }
      Some(g)
  }

  /**
   * FindSubmatch finds a match exactly when the pattern matches somewhere,
   * and then returns the captures of the leftmost match, with the longest
   * ip capture among the matches that start there.
   */
  lemma FindSubmatchLeftmostLongest(s: string)
    ensures FindSubmatch(s).Some? <==> exists i, k :: Candidate(s, i, k)
    ensures FindSubmatch(s).Some? ==>
      exists i, k :: && Candidate(s, i, k)
                     && FindSubmatch(s).value == Groups(s, i, k)
                     && (forall i', k' :: i' < i ==> !Candidate(s, i', k'))
                     && (forall k' :: k < k' ==> !Candidate(s, i, k'))
  {
    LeftmostSkipsNothing(Matches(s), 0, |s|);
    var r := Leftmost(Matches(s), 0, |s|);
    if r.None? {
      NoCandidateBefore(s, |s| + 1);
    } else {
      var (i, k) := r.value;
      NoCandidateBefore(s, i);
      MatchAtLongest(s, i);
      assert Candidate(s, i, k) && FindSubmatch(s).value == Groups(s, i, k);
    }
  }

  /** Where MatchAt finds nothing, no match starts. */
  lemma NoCandidateBefore(s: string, n: nat)
    requires forall i' :: 0 <= i' < n ==> Matches(s)(i').None?
    ensures forall i': nat, k': nat :: i' < n ==> !Candidate(s, i', k')
  {
    forall i': nat, k': nat | i' < n ensures !Candidate(s, i', k') {
      if i' <= |s| {
        assert Matches(s)(i') == MatchAt(s, i');
        MatchAtLongest(s, i');
      }
    }
  }

  /** The text ",port=" starts at m. */
  predicate PortAt(s: string, m: nat) {
    m + 6 <= |s| && s[m..m + 6] == ",port="
  }

  /**
   * Past the start of a tail, no further tail begins as long as no ",port="
   * starts after its state: the fields Redis appends there (",offset=…")
   * are harmless.
   */
  lemma NoTailAfter(s: string, k: nat, p: string, st: string, j: nat)
    requires TailText(s, k, p, st)
    requires forall m: nat :: k + |p| + |st| + 13 <= m < |s| ==> !PortAt(s, m)
    requires k < j <= |s|
    ensures TailAt(s, j).None?
  {
    var pe := k + 6 + |p|;
    var e := pe + 7 + |st|;
    if j + 6 <= |s| && j < e {
      if j < k + 6 {
        assert s[j] == s[k..k + 6][j - k];
      } else if j < pe {
        assert s[j] == p[j - (k + 6)];
      } else if j == pe {
        assert s[j + 1] == s[pe..pe + 7][1];
      } else if j < pe + 7 {
        assert s[j] == s[pe..pe + 7][j - pe];
      } else {
        assert s[j] == st[j - (pe + 7)] && st[j - (pe + 7)] in st;
      }
      assert s[j..j + 6][0] == s[j] && s[j..j + 6][1] == s[j + 1];
    } else if j >= e {
      assert !PortAt(s, j);
    }
  }

  /** Where no ",port=" starts in r, none starts in the part of s that is r. */
  lemma NoPortInSuffix(s: string, e: nat, r: string)
    requires e <= |s| && s[e..] == r
    requires forall m: nat :: m < |r| ==> !PortAt(r, m)
    ensures forall m: nat :: e <= m < |s| ==> !PortAt(s, m)
  {
    forall m: nat | e <= m < |s| ensures !PortAt(s, m) {
      if m + 6 <= |s| {
        assert s[m..m + 6] == r[m - e..m - e + 6];
        assert !PortAt(r, m - e);
      }
    }
  }

  /**
   * A line that reads "slave<digits>:ip=" up to h, then an ip with no
   * newline up to k, then a tail, with no ",port=" after the tail, yields the
   * ip between h and k and the tail's port and state.
   */
  lemma MatchOfText(s: string, h: nat, k: nat, p: string, st: string)
    requires TailText(s, k, p, st)
    requires HeadText(s, 0, h) && h <= k
    requires forall m :: h <= m < k ==> s[m] != '\n'
    requires forall m: nat :: k + |p| + |st| + 13 <= m < |s| ==> !PortAt(s, m)
    ensures FindSubmatch(s) == Some(Submatch(s[h..k], p, st))
  {
    HeadAtIff(s, 0, h);
    TextTailAt(s, k, p, st);
    var E := RunEnd(s, h, NotNewline);
    RunEndCovers(s, h, k, NotNewline);
    var lt := LastTail(s, h, E);
    if lt.value != k {
      NoTailAfter(s, k, p, st, lt.value);
    }
    assert Matches(s)(0) == Some(k);
    assert Leftmost(Matches(s), 0, |s|) == Some((0, k));
    MatchAtLongest(s, 0);
  }

  /** The INFO replication line "slave<d>:ip=<ip>,port=<p>,state=<st><r>" for one replica. */
  function ReplicaLine(d: string, ip: string, p: string, st: string, r: string): string {
    "slave" + d + ":ip=" + ip + ",port=" + p + ",state=" + st + r
  }

  /** A replica line reads "slave<d>:ip=" and then its ip. */
  lemma ReplicaLineHead(d: string, ip: string, p: string, st: string, r: string)
    requires AllDigits(d) && '\n' !in ip
    ensures var s := ReplicaLine(d, ip, p, st, r);
      && HeadText(s, 0, 9 + |d|) && |ip| + 9 + |d| <= |s| && s[9 + |d|..9 + |d| + |ip|] == ip
      && forall m :: 9 + |d| <= m < 9 + |d| + |ip| ==> s[m] != '\n'
  {
    var s := ReplicaLine(d, ip, p, st, r);
    var h := 9 + |d|;
    assert s[0..5] == ReplicaMarker;
    assert s[5..h - 4] == d;
    assert s[h - 4..h] == ":ip=";
    assert s[h..h + |ip|] == ip;
    forall m | h <= m < h + |ip| ensures s[m] != '\n' {
      assert s[m] == ip[m - h];
    }
  }

  /** A replica line reads ",port=<p>,state=<st>" after its ip, and no ",port=" follows. */
  lemma ReplicaLineTail(d: string, ip: string, p: string, st: string, r: string)
    requires |p| > 0 && AllDigits(p)
    requires |st| > 0 && forall c :: c in st ==> IsLower(c)
    requires (r == [] || !IsLower(r[0])) && forall m: nat :: m < |r| ==> !PortAt(r, m)
    ensures var s := ReplicaLine(d, ip, p, st, r); var k := 9 + |d| + |ip|;
      && TailText(s, k, p, st)
      && forall m: nat :: k + |p| + |st| + 13 <= m < |s| ==> !PortAt(s, m)
  {
    var s := ReplicaLine(d, ip, p, st, r);
    var k := 9 + |d| + |ip|;
    var pe := k + 6 + |p|;
    var e := pe + 7 + |st|;
    assert |s| == e + |r|;
    assert s[k..k + 6] == ",port=";
    assert s[k + 6..pe] == p;
    assert s[pe..pe + 7] == ",state=";
    assert s[pe + 7..e] == st;
    assert s[e..] == r;
    if e < |s| { assert s[e] == r[0]; }
    NoPortInSuffix(s, e, r);
  }


  /**
   * A replica line yields its ip, port and state whenever the state is the
   * whole lower-case run and no ",port=" follows it; other fields such as
   * ",offset=14,lag=0" may follow.
   */
  lemma ReplicaLineCaptures(d: string, ip: string, p: string, st: string, r: string)
    requires AllDigits(d) && '\n' !in ip
    requires |p| > 0 && AllDigits(p)
    requires |st| > 0 && forall c :: c in st ==> IsLower(c)
    requires (r == [] || !IsLower(r[0])) && forall m: nat :: m < |r| ==> !PortAt(r, m)
    ensures FindSubmatch(ReplicaLine(d, ip, p, st, r)) == Some(Submatch(ip, p, st))
  {
    var s := ReplicaLine(d, ip, p, st, r);
    var h := 9 + |d|;
    var k := h + |ip|;
    ReplicaLineHead(d, ip, p, st, r);
    ReplicaLineTail(d, ip, p, st, r);
    assert s[h..k] == ip;
    MatchOfText(s, h, k, p, st);
  }


  /** A replica still in the bulk-transfer phase reports state "send_bulk"; only "send" is captured. */
  lemma SendBulkReadAsSend()
    ensures FindSubmatch("slave1:ip=10.0.0.3,port=6380,state=send_bulk") == Some(Submatch("10.0.0.3", "6380", "send"))
  {
    assert "slave" + "1" + ":ip=" + "10.0.0.3" == "slave1:ip=10.0.0.3";
    assert "slave1:ip=10.0.0.3" + ",port=" + "6380" + ",state=" + "send" + "_bulk"
        == "slave1:ip=10.0.0.3,port=6380,state=send_bulk";
    assert ReplicaLine("1", "10.0.0.3", "6380", "send", "_bulk") == "slave1:ip=10.0.0.3,port=6380,state=send_bulk";
    ReplicaLineCaptures("1", "10.0.0.3", "6380", "send", "_bulk");
  }

  /** A replica line as Redis sends it, with the fields after the state: they are ignored. */
  lemma OnlineReplicaLine()
    ensures FindSubmatch("slave0:ip=10.0.0.2,port=6380,state=online,offset=14,lag=0")
            == Some(Submatch("10.0.0.2", "6380", "online"))
  {
    var r := ",offset=14,lag=0";
    forall m: nat | m < |r| ensures !PortAt(r, m) {
      if m + 6 <= |r| {
        assert r[m..m + 6][0] == r[m] && r[m..m + 6][1] == r[m + 1];
      }
    }
    OnlineLineText();
    ReplicaLineCaptures("0", "10.0.0.2", "6380", "online", r);
  }

  lemma OnlineLineText()
    ensures ReplicaLine("0", "10.0.0.2", "6380", "online", ",offset=14,lag=0")
            == "slave0:ip=10.0.0.2,port=6380,state=online,offset=14,lag=0"
  {
    var head := "slave" + "0" + ":ip=" + "10.0.0.2";
    assert head == "slave0:ip=10.0.0.2";
    var tail := head + ",port=" + "6380" + ",state=" + "online";
    assert tail == "slave0:ip=10.0.0.2,port=6380,state=online";
    assert tail + ",offset=14,lag=0" == "slave0:ip=10.0.0.2,port=6380,state=online,offset=14,lag=0";
  }


  /** A line that getSlaves turns into a replica: it starts with "slave" and the pattern matches. */
  function ReplicaOf(line: string): (r: Option<Submatch>)
    ensures r.Some? ==> HasPrefix(line, ReplicaMarker) && |r.value.port| > 0 && AllDigits(r.value.port)
  {
    if HasPrefix(line, ReplicaMarker) then FindSubmatch(line) else None
  }

  // ---------------------------------------------------------------------------
  // getSlaves

  /**
   * The replicas of host:port, discovered recursively. `fuel` bounds the
   * nesting of replication fetches (the source has no bound): running out
   * is reported as DepthExceeded.
   */
  function Slaves(fetch: Fetcher, host: string, port: int, fuel: nat): Result<seq<Node>>
    decreases fuel, 0, 0
  {
    if fuel == 0 then Err(DepthExceeded(host, port))
    else
      match fetch(ReplicationCategory, host, port)
      case None => Err(FetchFailed(ReplicationCategory, host, port))
      case Some(text) => SlavesOf(fetch, Split(text, '\n'), fuel - 1)
  }

  /** A result that is not the fuel running out: it stays the same with more fuel (SlavesFuelMonotone). */
  predicate Settled(r: Result<seq<Node>>) {
    r.Err? ==> !r.fault.DepthExceeded?
  }

  /** The replica nodes described by `lines`, in line order; the first failure wins. */
  function SlavesOf(fetch: Fetcher, lines: seq<string>, fuel: nat): Result<seq<Node>>
    decreases fuel, 1, |lines|
  {
    if lines == [] then Ok([])
    else
      match ReplicaOf(lines[0])
      case None => SlavesOf(fetch, lines[1..], fuel)
      case Some(m) => SlaveNode(fetch, m, fuel, SlavesOf(fetch, lines[1..], fuel))
  }

  /**
   * The child for one replica line, discovered in full before the later
   * lines are looked at, followed by the children of the later lines.
   */
  function SlaveNode(fetch: Fetcher, m: Submatch, fuel: nat, later: Result<seq<Node>>): Result<seq<Node>>
    decreases fuel, 1, 0
  {
    match Atoi(m.port)
    case None => Err(BadPort(m.port))
    case Some(port) =>
      match Slaves(fetch, m.ip, port, fuel)
      case Err(e) => Err(e)
      case Ok(slaves) => Prepend([Node(m.ip, port, Label(m.ip, port, m.state), slaves)], later)
  }

  /** getSlaves: fetch the replication text, then build one child per replica line. */
  method GetSlaves(fetch: Fetcher, host: string, port: int, fuel: nat) returns (r: Result<seq<Node>>)
    ensures r == Slaves(fetch, host, port, fuel)
    decreases fuel, 0
  {
    if fuel == 0 {
      return Err(DepthExceeded(host, port));
    }
    var text := fetch(ReplicationCategory, host, port);
    if text.None? {
      return Err(FetchFailed(ReplicationCategory, host, port));
    }
    var f: nat := fuel - 1;
    r := ReadReplicas(fetch, Split(text.value, '\n'), f);
  }

  /** The loop of getSlaves over the replication lines: one child per replica line, in line order. */
  method ReadReplicas(fetch: Fetcher, lines: seq<string>, fuel: nat) returns (r: Result<seq<Node>>)
    ensures r == SlavesOf(fetch, lines, fuel)
    decreases fuel, 1
  {
    var slaves: seq<Node> := [];
    assert lines[0..] == lines;
    PrependNothing(SlavesOf(fetch, lines, fuel));
    for i := 0 to |lines|
      invariant SlavesOf(fetch, lines, fuel) == Prepend(slaves, SlavesOf(fetch, lines[i..], fuel))
    {
      var line := lines[i];
      if !HasPrefix(line, ReplicaMarker) {
        SkipLine(fetch, lines, i, fuel, slaves);
        continue;
      }
      var matches := FindSubmatch(line);
      assert ReplicaOf(line) == matches;
      if matches.None? {
        SkipLine(fetch, lines, i, fuel, slaves);
        continue;
      }
      var slaveHost := matches.value.ip;
      var portText := matches.value.port;
      var slavePort := Atoi(portText);
      if slavePort.None? {
        // unreachable: Atoi accepts every non-empty run of digits
        assert false;
        return Err(BadPort(portText));
      }
      var sub := GetSlaves(fetch, slaveHost, slavePort.value, fuel);
      if sub.Err? {
        FailLine(fetch, lines, i, fuel, slaves);
        return Err(sub.fault);
      }
      var showText := Label(slaveHost, slavePort.value, matches.value.state);
      var child := Node(slaveHost, slavePort.value, showText, sub.value);
      ChildLine(fetch, lines, i, fuel, slaves, matches.value, child);
      slaves := slaves + [child];
    }
    assert lines[|lines|..] == [];
    assert Prepend(slaves, Ok([])) == Ok(slaves) by { assert slaves + [] == slaves; }
    return Ok(slaves);
  }

  /** SlavesOf on the lines from position i: what line i contributes, then the rest. */
  lemma SlavesOfAt(fetch: Fetcher, lines: seq<string>, i: nat, fuel: nat)
    requires i < |lines|
    ensures SlavesOf(fetch, lines[i..], fuel)
         == match ReplicaOf(lines[i])
            case None => SlavesOf(fetch, lines[i + 1..], fuel)
            case Some(m) => SlaveNode(fetch, m, fuel, SlavesOf(fetch, lines[i + 1..], fuel))
  {
    assert lines[i..][0] == lines[i];
    assert lines[i..][1..] == lines[i + 1..];
  }

  /** A line that is not a replica line leaves the children found so far as they are. */
  lemma SkipLine(fetch: Fetcher, lines: seq<string>, i: nat, fuel: nat, done: seq<Node>)
    requires i < |lines| && ReplicaOf(lines[i]).None?
    requires SlavesOf(fetch, lines, fuel) == Prepend(done, SlavesOf(fetch, lines[i..], fuel))
    ensures SlavesOf(fetch, lines, fuel) == Prepend(done, SlavesOf(fetch, lines[i + 1..], fuel))
  {
    SlavesOfAt(fetch, lines, i, fuel);
  }

  /** A replica line whose port or whose own replicas cannot be read makes the whole list fail with that fault. */
  lemma FailLine(fetch: Fetcher, lines: seq<string>, i: nat, fuel: nat, done: seq<Node>)
    requires i < |lines| && ReplicaOf(lines[i]).Some?
    requires SlavesOf(fetch, lines, fuel) == Prepend(done, SlavesOf(fetch, lines[i..], fuel))
    ensures SlavesBelow(fetch, ReplicaOf(lines[i]).value, fuel).Err? ==>
      SlavesOf(fetch, lines, fuel) == Err(SlavesBelow(fetch, ReplicaOf(lines[i]).value, fuel).fault)
  {
    SlavesOfAt(fetch, lines, i, fuel);
  }

  /** A replica line whose replicas are discovered adds its child after the ones found so far. */
  lemma ChildLine(fetch: Fetcher, lines: seq<string>, i: nat, fuel: nat, done: seq<Node>, m: Submatch, child: Node)
    requires i < |lines| && ReplicaOf(lines[i]) == Some(m)
    requires SlavesOf(fetch, lines, fuel) == Prepend(done, SlavesOf(fetch, lines[i..], fuel))
    requires Atoi(m.port) == Some(child.port)
    requires child == Node(m.ip, child.port, Label(m.ip, child.port, m.state), child.slaves)
    requires Slaves(fetch, m.ip, child.port, fuel) == Ok(child.slaves)
    ensures SlavesOf(fetch, lines, fuel) == Prepend(done + [child], SlavesOf(fetch, lines[i + 1..], fuel))
  {
    SlavesOfAt(fetch, lines, i, fuel);
    PrependPrepend(done, [child], SlavesOf(fetch, lines[i + 1..], fuel));
  }

  // ---------------------------------------------------------------------------
  // What getSlaves builds

  /** The replica lines among `lines`, in order. */
  function Replicas(lines: seq<string>): (r: seq<Submatch>)
    decreases |lines|
  {
    if lines == [] then []
    else
      match ReplicaOf(lines[0])
      case None => Replicas(lines[1..])
      case Some(m) => [m] + Replicas(lines[1..])
  }

  /** The port of a replica line, as Atoi reads it (it always can: the capture is all digits). */
  function ReplicaPort(m: Submatch): int
    requires |m.port| > 0 && AllDigits(m.port)
  {
    DigitsValue(m.port)
  }

  /** Every replica line yields a well-formed capture. */
  lemma {:induction false} ReplicasWellFormed(lines: seq<string>)
    ensures forall j :: 0 <= j < |Replicas(lines)| ==> |Replicas(lines)[j].port| > 0 && AllDigits(Replicas(lines)[j].port)
    decreases |lines|
  {
    if lines != [] {
      var rest := lines[1..];
      ReplicasWellFormed(rest);
      match ReplicaOf(lines[0])
      case None =>
        assert Replicas(lines) == Replicas(rest);
      case Some(m) =>
        assert Replicas(lines) == [m] + Replicas(rest);
    }
  }

  /**
   * The child built for replica line `m`: it carries the captured ip and the
   * port Atoi reads from the captured digits, is labelled "ip:port:state",
   * and holds the replicas discovered from that ip and port.
   */
  predicate Discovered(fetch: Fetcher, m: Submatch, fuel: nat, child: Node) {
    && |m.port| > 0 && AllDigits(m.port)
    && child.ip == m.ip
    && child.port == ReplicaPort(m)
    && child.showText == Label(m.ip, ReplicaPort(m), m.state)
    && Slaves(fetch, m.ip, ReplicaPort(m), fuel) == Ok(child.slaves)
  }

  /**
   * One child per replica line, in line order. Lines that do not start with
   * "slave" or do not match the pattern contribute nothing.
   */
  lemma {:induction false} SlavesOfShape(fetch: Fetcher, lines: seq<string>, fuel: nat, children: seq<Node>)
    requires SlavesOf(fetch, lines, fuel) == Ok(children)
    ensures |children| == |Replicas(lines)|
    ensures forall j :: 0 <= j < |children| ==> Discovered(fetch, Replicas(lines)[j], fuel, children[j])
    decreases |lines|
  {
    if lines != [] {
      match ReplicaOf(lines[0])
      case None =>
        SlavesOfShape(fetch, lines[1..], fuel, children);
      case Some(m) =>
        AtoiDigits(m.port);
        var port := Atoi(m.port).value;
        var below := Slaves(fetch, m.ip, port, fuel).value;
        var rest := SlavesOf(fetch, lines[1..], fuel).value;
        assert children == [Node(m.ip, port, Label(m.ip, port, m.state), below)] + rest;
        SlavesOfShape(fetch, lines[1..], fuel, rest);
        var rs := Replicas(lines);
        assert rs == [m] + Replicas(lines[1..]);
        forall j | 0 <= j < |children|
          ensures Discovered(fetch, rs[j], fuel, children[j])
        {
          if j > 0 {
            assert children[j] == rest[j - 1] && rs[j] == Replicas(lines[1..])[j - 1];
          }
        }
    }
  }

  /**
   * A malformed or unrelated line never aborts discovery: the replica list
   * of a text fails exactly when discovering below one of its replica lines
   * fails.
   */
  lemma {:induction false} SlavesOfFailsOnlyBelow(fetch: Fetcher, lines: seq<string>, fuel: nat)
    ensures SlavesOf(fetch, lines, fuel).Err? <==> SomeBelowFails(fetch, Replicas(lines), fuel)
    decreases |lines|
  {
    if lines != [] {
      SlavesOfFailsOnlyBelow(fetch, lines[1..], fuel);
      match ReplicaOf(lines[0])
      case None =>
        assert Replicas(lines) == Replicas(lines[1..]);
      case Some(m) =>
        AtoiDigits(m.port);
        assert Replicas(lines) == [m] + Replicas(lines[1..]);
        SomeBelowFailsCons(fetch, m, Replicas(lines[1..]), fuel);
    }
  }

  /** Discovery below at least one of the replica lines `rs` fails. */
  ghost predicate SomeBelowFails(fetch: Fetcher, rs: seq<Submatch>, fuel: nat) {
    exists j :: 0 <= j < |rs| && SlavesBelow(fetch, rs[j], fuel).Err?
  }

  lemma SomeBelowFailsCons(fetch: Fetcher, m: Submatch, rs: seq<Submatch>, fuel: nat)
    ensures SomeBelowFails(fetch, [m] + rs, fuel) <==> SlavesBelow(fetch, m, fuel).Err? || SomeBelowFails(fetch, rs, fuel)
  {
    var all := [m] + rs;
    if SomeBelowFails(fetch, rs, fuel) {
      var j :| 0 <= j < |rs| && SlavesBelow(fetch, rs[j], fuel).Err?;
      assert all[j + 1] == rs[j];
    }
    if SomeBelowFails(fetch, all, fuel) && SlavesBelow(fetch, m, fuel).Ok? {
      var j :| 0 <= j < |all| && SlavesBelow(fetch, all[j], fuel).Err?;
      assert j > 0 && all[j] == rs[j - 1];
    }
    if SlavesBelow(fetch, m, fuel).Err? {
      assert all[0] == m;
    }
  }

  /** The discovery below one replica line (the Atoi step cannot fail on its digits). */
  function SlavesBelow(fetch: Fetcher, m: Submatch, fuel: nat): Result<seq<Node>> {
    match Atoi(m.port)
    case None => Err(BadPort(m.port))
    case Some(port) => Slaves(fetch, m.ip, port, fuel)
  }

  /** The number of levels of a forest (0 for no nodes). */
  function Depth(ns: seq<Node>): nat
    decreases ns
  {
    if ns == [] then 0
    else
      var below := 1 + Depth(ns[0].slaves);
      var beside := Depth(ns[1..]);
      if below < beside then beside else below
  }

  /** The tree discovered with a given fuel is less deep than the fuel. */
  lemma {:induction false} SlavesDepth(fetch: Fetcher, host: string, port: int, fuel: nat, ns: seq<Node>)
    requires Slaves(fetch, host, port, fuel) == Ok(ns)
    ensures Depth(ns) < fuel
    decreases fuel, 0, 0
  {
    var text := fetch(ReplicationCategory, host, port).value;
    var f: nat := fuel - 1;
    SlavesOfDepth(fetch, Split(text, '\n'), f, ns);
  }

  lemma {:induction false} SlavesOfDepth(fetch: Fetcher, lines: seq<string>, fuel: nat, ns: seq<Node>)
    requires SlavesOf(fetch, lines, fuel) == Ok(ns)
    ensures Depth(ns) <= fuel
    decreases fuel, 1, |lines|
  {
    if lines != [] {
      match ReplicaOf(lines[0])
      case None =>
        SlavesOfDepth(fetch, lines[1..], fuel, ns);
      case Some(m) =>
        var port := Atoi(m.port).value;
        var slaves := Slaves(fetch, m.ip, port, fuel).value;
        var rest := SlavesOf(fetch, lines[1..], fuel).value;
        SlavesDepth(fetch, m.ip, port, fuel, slaves);
        SlavesOfDepth(fetch, lines[1..], fuel, rest);
        assert ns[0].slaves == slaves && ns[1..] == rest;
    }
  }

  /**
   * The fuel only bounds the recursion: whenever discovery ends other than
   * by running out of fuel, more fuel gives the very same outcome, the same
   * tree or the same fault.
   */
  lemma {:induction false} SlavesFuelMonotone(fetch: Fetcher, host: string, port: int, fuel: nat, more: nat)
    requires fuel <= more
    requires Settled(Slaves(fetch, host, port, fuel))
    ensures Slaves(fetch, host, port, more) == Slaves(fetch, host, port, fuel)
    decreases fuel, 0, 0
  {
    if fetch(ReplicationCategory, host, port).Some? {
      var text := fetch(ReplicationCategory, host, port).value;
      var lines := Split(text, '\n');
      var f: nat, g: nat := fuel - 1, more - 1;
      assert Slaves(fetch, host, port, fuel) == SlavesOf(fetch, lines, f);
      assert Slaves(fetch, host, port, more) == SlavesOf(fetch, lines, g);
      SlavesOfFuelMonotone(fetch, lines, f, g);
    }
  }

  lemma {:induction false} SlavesOfFuelMonotone(fetch: Fetcher, lines: seq<string>, fuel: nat, more: nat)
    requires fuel <= more
    requires Settled(SlavesOf(fetch, lines, fuel))
    ensures SlavesOf(fetch, lines, more) == SlavesOf(fetch, lines, fuel)
    decreases fuel, 1, |lines|
  {
    if lines != [] {
      var rest := lines[1..];
      match ReplicaOf(lines[0])
      case None =>
        SlavesOfFuelMonotone(fetch, rest, fuel, more);
      case Some(m) =>
        var later := SlavesOf(fetch, rest, fuel);
        assert SlavesOf(fetch, lines, fuel) == SlaveNode(fetch, m, fuel, later);
        assert SlavesOf(fetch, lines, more) == SlaveNode(fetch, m, more, SlavesOf(fetch, rest, more));
        if Atoi(m.port).Some? {
          var port := Atoi(m.port).value;
          SlaveNodeSettled(fetch, m, fuel, later);
          SlavesFuelMonotone(fetch, m.ip, port, fuel, more);
          if Slaves(fetch, m.ip, port, fuel).Ok? {
            SlavesOfFuelMonotone(fetch, rest, fuel, more);
          }
          SlaveNodeSame(fetch, m, fuel, more, later, SlavesOf(fetch, rest, more));
        }
    }
  }

  /** A settled result for a replica line comes from a settled child and, when the child succeeds, settled later lines. */
  lemma SlaveNodeSettled(fetch: Fetcher, m: Submatch, fuel: nat, later: Result<seq<Node>>)
    requires Settled(SlaveNode(fetch, m, fuel, later)) && Atoi(m.port).Some?
    ensures Settled(Slaves(fetch, m.ip, Atoi(m.port).value, fuel))
    ensures Slaves(fetch, m.ip, Atoi(m.port).value, fuel).Ok? ==> Settled(later)
  {
  }

  /** A replica line gives the same result at two fuels when its child does and, if that succeeds, the later lines do. */
  lemma SlaveNodeSame(fetch: Fetcher, m: Submatch, fuel: nat, more: nat, later: Result<seq<Node>>, later': Result<seq<Node>>)
    requires Atoi(m.port).Some?
    requires Slaves(fetch, m.ip, Atoi(m.port).value, more) == Slaves(fetch, m.ip, Atoi(m.port).value, fuel)
    requires Slaves(fetch, m.ip, Atoi(m.port).value, fuel).Ok? ==> later' == later
    ensures SlaveNode(fetch, m, more, later') == SlaveNode(fetch, m, fuel, later)
  {
  }

  // ---------------------------------------------------------------------------
  // readRedisOpiton

  /**
   * The seed forest read from the input lines: one root per line with at
   * least two fields, "host port"; the first failure wins.
   */
  function Seeds(fetch: Fetcher, resolve: Resolver, lines: seq<string>, fuel: nat): Result<seq<Node>>
    decreases |lines|
  {
    if lines == [] then Ok([])
    else
      var line := TrimSpace(lines[0]);
      if line == "" then Seeds(fetch, resolve, lines[1..], fuel)
      else
        var fields := Fields(line);
        if |fields| < 2 then Seeds(fetch, resolve, lines[1..], fuel)
        else SeedNode(fetch, resolve, fields[0], fields[1], fuel, Seeds(fetch, resolve, lines[1..], fuel))
  }

  /** One seed root, followed by the roots of the later lines. */
  function SeedNode(fetch: Fetcher, resolve: Resolver, host: string, portField: string, fuel: nat,
                    later: Result<seq<Node>>): Result<seq<Node>>
  {
    match Atoi(portField)
    case None => Err(BadPort(portField))
    case Some(port) =>
      match resolve(host)
      case None => Err(ResolveFailed(host))
      case Some(ips) =>
        if |ips| == 0 then Err(NoAddress(host))
        else
          match Slaves(fetch, host, port, fuel)
          case Err(e) => Err(e)
          case Ok(slaves) => Prepend([Node(ips[0], port, Label(host, port, OnlineState), slaves)], later)
  }

  /** The loop of readRedisOpiton over the lines of standard input. */
  method ReadRedisOptions(fetch: Fetcher, resolve: Resolver, input: seq<string>, fuel: nat) returns (r: Result<seq<Node>>)
    ensures r == Seeds(fetch, resolve, input, fuel)
  {
    var clusters: seq<Node> := [];
    assert input[0..] == input;
    PrependNothing(Seeds(fetch, resolve, input, fuel));
    for n := 0 to |input|
      invariant Seeds(fetch, resolve, input, fuel) == Prepend(clusters, Seeds(fetch, resolve, input[n..], fuel))
    {
      ghost var later := Seeds(fetch, resolve, input[n + 1..], fuel);
      assert input[n..][1..] == input[n + 1..];
      var line := TrimSpace(input[n]);
      if line == "" {
        assert Seeds(fetch, resolve, input[n..], fuel) == later;
        continue;
      }
      var fields := Fields(line);
      if |fields| < 2 {
        assert Seeds(fetch, resolve, input[n..], fuel) == later;
        continue;
      }
      assert Seeds(fetch, resolve, input[n..], fuel) == SeedNode(fetch, resolve, fields[0], fields[1], fuel, later);
      var host := fields[0];
      var port := Atoi(fields[1]);
      if port.None? {
        return Err(BadPort(fields[1]));
      }
      var ips := resolve(host);
      if ips.None? {
        return Err(ResolveFailed(host));
      }
      if |ips.value| == 0 {
        return Err(NoAddress(host));
      }
      var slaves := GetSlaves(fetch, host, port.value, fuel);
      if slaves.Err? {
        return Err(slaves.fault);
      }
      var cluster := Node(ips.value[0], port.value, Label(host, port.value, OnlineState), slaves.value);
      PrependPrepend(clusters, [cluster], later);
      clusters := clusters + [cluster];
    }
    assert input[|input|..] == [];
    assert Prepend(clusters, Ok([])) == Ok(clusters) by { assert clusters + [] == clusters; }
    return Ok(clusters);
  }

  // ---------------------------------------------------------------------------
  // What readRedisOpiton builds

  /** The fields of the input lines that name a seed (at least two fields), in order. */
  function SeedLines(lines: seq<string>): (r: seq<seq<string>>)
    ensures forall fields <- r :: |fields| >= 2
    decreases |lines|
  {
    if lines == [] then []
    else
      var fields := Fields(TrimSpace(lines[0]));
      var tail := lines[1..];
      var rest := SeedLines(tail);
      if |fields| < 2 then rest else [fields] + rest
  }

  /**
   * The root built for a seed line with fields `fields`: its address is the
   * first one the resolver gives for the host, its port is the second field
   * read by Atoi, its label uses the host as typed, "host:port:online", and
   * its replicas are discovered from the host as typed.
   */
  predicate Seeded(fetch: Fetcher, resolve: Resolver, fields: seq<string>, fuel: nat, root: Node) {
    && |fields| >= 2
    && Atoi(fields[1]) == Some(root.port)
    && resolve(fields[0]).Some? && |resolve(fields[0]).value| > 0
    && root.ip == resolve(fields[0]).value[0]
    && root.showText == Label(fields[0], root.port, OnlineState)
    && Slaves(fetch, fields[0], root.port, fuel) == Ok(root.slaves)
  }

  /** A seed root that was built is the root its line describes, followed by the later roots. */
  lemma SeedNodeOk(fetch: Fetcher, resolve: Resolver, fields: seq<string>, fuel: nat,
                   later: Result<seq<Node>>, roots: seq<Node>)
    requires |fields| >= 2
    requires SeedNode(fetch, resolve, fields[0], fields[1], fuel, later) == Ok(roots)
    ensures later.Ok? && |roots| == 1 + |later.value|
    ensures roots == [roots[0]] + later.value
    ensures Seeded(fetch, resolve, fields, fuel, roots[0])
  {
  }

  /** One root per seed line, in order; lines with fewer than two fields contribute nothing. */
  lemma {:induction false} SeedsShape(fetch: Fetcher, resolve: Resolver, lines: seq<string>, fuel: nat, roots: seq<Node>)
    requires Seeds(fetch, resolve, lines, fuel) == Ok(roots)
    ensures |roots| == |SeedLines(lines)|
    ensures forall j :: 0 <= j < |roots| ==> Seeded(fetch, resolve, SeedLines(lines)[j], fuel, roots[j])
    decreases |lines|
  {
    if lines != [] {
      var line := TrimSpace(lines[0]);
      var fields := Fields(line);
      if line == "" {
        assert |fields| == 0;
        SeedsShape(fetch, resolve, lines[1..], fuel, roots);
      } else if |fields| < 2 {
        SeedsShape(fetch, resolve, lines[1..], fuel, roots);
      } else {
        var later := Seeds(fetch, resolve, lines[1..], fuel);
        SeedNodeOk(fetch, resolve, fields, fuel, later, roots);
        var rest := later.value;
        SeedsShape(fetch, resolve, lines[1..], fuel, rest);
        assert SeedLines(lines) == [fields] + SeedLines(lines[1..]);
        PairwiseCons((f, r) => Seeded(fetch, resolve, f, fuel, r), fields, SeedLines(lines[1..]), roots[0], rest);
      }
    }
  }

  /** A seed line whose port field Atoi refuses makes the whole read fail. */
  lemma BadPortFails(fetch: Fetcher, resolve: Resolver, lines: seq<string>, fuel: nat, j: nat)
    requires j < |SeedLines(lines)| && Atoi(SeedLines(lines)[j][1]).None?
    ensures Seeds(fetch, resolve, lines, fuel).Err?
  {
    if Seeds(fetch, resolve, lines, fuel).Ok? {
      SeedsShape(fetch, resolve, lines, fuel, Seeds(fetch, resolve, lines, fuel).value);
    }
  }
}
