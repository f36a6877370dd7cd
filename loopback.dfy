/** The rewrite `checkResolvConf` applies to the host's resolver file:
    every match of the regular expression `127(.[0-9]{0,3}){3}` is
    replaced by the bridge interface's address, leftmost match first,
    matches not overlapping, as Go's `Regexp.ReplaceAllLiteral` does.

    The `.` is not escaped, so it stands for any character but a newline;
    each `[0-9]{0,3}` is greedy and gives digits back when the rest of the
    pattern cannot match otherwise. `Groups` and `TryDigits` are that
    backtracking search; `GroupsAt` and `Prefers` say declaratively what
    a match is and which one leftmost-first semantics picks. */
module Loopback {
  import opened Wrappers
  import opened Decimal

  /** Repetitions of the group `.[0-9]{0,3}` after the literal `127`. */
  const GroupCount: nat := 3
  /** The most digits one group takes. */
  const MaxDigits: nat := 3

  const HostResolvConf := "/etc/resolv.conf"
  const DockerResolvConf := "/var/lib/docker/resolv.conf"

  /** One group matched at `p`: a non-newline character, then `d` digits. */
  predicate GroupAt(s: string, p: nat, d: nat) {
    d <= MaxDigits && p + 1 + d <= |s| && s[p] != '\n' &&
    forall k | p + 1 <= k < p + 1 + d :: IsDigit(s[k])
  }

  /** Groups matched one after the other from `p`, the k-th taking ds[k] digits. */
  predicate GroupsAt(s: string, p: nat, ds: seq<nat>)
    decreases |ds|
  {
    ds == [] || (GroupAt(s, p, ds[0]) && GroupsAt(s, p + 1 + ds[0], ds[1..]))
  }

  /** Where the groups end. */
  function GroupsEnd(p: nat, ds: seq<nat>): nat
    decreases |ds|
  {
    if ds == [] then p else GroupsEnd(p + 1 + ds[0], ds[1..])
  }

  /** `a` comes no later than `b` in the order a backtracking matcher
      tries them: greedy repetition tries more digits first, earlier groups
      before later ones. */
  predicate Prefers(a: seq<nat>, b: seq<nat>)
    decreases |a|
  {
    |a| == |b| &&
    (a == [] || a[0] > b[0] || (a[0] == b[0] && Prefers(a[1..], b[1..])))
  }

  /** The number of digits from `q` on, at most `max`. */
  function DigitRun(s: string, q: nat, max: nat): (r: nat)
    ensures r <= max && (r > 0 ==> q + r <= |s|)
    ensures forall k | q <= k < q + r :: IsDigit(s[k])
    ensures r < max ==> q + r >= |s| || !IsDigit(s[q + r])
    decreases max
  {
    if max == 0 || q >= |s| || !IsDigit(s[q]) then 0 else 1 + DigitRun(s, q + 1, max - 1)
  }

  /** Match `n` groups from `p`, backtracking: the digit counts of the
      chosen match, or None when there is none. */
  function Groups(s: string, p: nat, n: nat): (r: Option<seq<nat>>)
    ensures r.Some? ==> |r.value| == n && GroupsAt(s, p, r.value)
    decreases n, 1, 0
  {
    if n == 0 then Some([])
    else if p >= |s| || s[p] == '\n' then None
    else TryDigits(s, p, n, DigitRun(s, p + 1, MaxDigits))
  }

  /** The first group at `p` takes `d` digits, then fewer, until the
      remaining groups match. */
  function TryDigits(s: string, p: nat, n: nat, d: nat): (r: Option<seq<nat>>)
    requires 0 < n && GroupAt(s, p, d)
    ensures r.Some? ==> |r.value| == n && GroupsAt(s, p, r.value)
    decreases n, 0, d
  {
    match Groups(s, p + 1 + d, n - 1)
    case Some(rest) =>
      assert ([d] + rest)[1..] == rest;
      Some([d] + rest)
    case None => if d == 0 then None else TryDigits(s, p, n, d - 1)
  }

  /** The match starting exactly at `i`, if any: where it ends. */
  function MatchAt(s: string, i: nat): (r: Option<nat>)
    ensures r.Some? ==> i + 3 + GroupCount <= r.value <= |s|
  {
    if i + 3 <= |s| && s[i..i + 3] == "127" then
      match Groups(s, i + 3, GroupCount)
      case Some(ds) =>
        GroupsEndBounds(s, i + 3, ds);
        Some(GroupsEnd(i + 3, ds))
      case None => None
    else None
  }

  /** Where a match can start: `127` and then at least three more
      characters on the same line. */
  predicate Candidate(s: string, i: nat) {
    i + 6 <= |s| && s[i..i + 3] == "127" &&
    s[i + 3] != '\n' && s[i + 4] != '\n' && s[i + 5] != '\n'
  }

  lemma {:induction false} GroupsEndBounds(s: string, p: nat, ds: seq<nat>)
    requires p <= |s| && GroupsAt(s, p, ds)
    ensures p + |ds| <= GroupsEnd(p, ds) <= |s|
    ensures forall k | p <= k < GroupsEnd(p, ds) :: s[k] != '\n'
    decreases |ds|
  {
    if ds != [] {
      GroupsEndBounds(s, p + 1 + ds[0], ds[1..]);
    }
  }

  /** If the first group's `d`-digit choice leaves a match for the rest,
      backing off from `d` ends in a match. */
  lemma {:induction false} TryDigitsFinds(s: string, p: nat, n: nat, d: nat)
    requires 0 < n && GroupAt(s, p, d) && Groups(s, p + 1, n - 1).Some?
    ensures TryDigits(s, p, n, d).Some?
    decreases d
  {
    if d > 0 && Groups(s, p + 1 + d, n - 1).None? {
      TryDigitsFinds(s, p, n, d - 1);
    }
  }

  /** The groups match exactly when the next `n` characters exist and none
      is a newline: digits never stop a match, only the line's end does. */
  lemma {:induction false} GroupsExist(s: string, p: nat, n: nat)
    requires p <= |s|
    ensures Groups(s, p, n).Some? <==>
      p + n <= |s| && forall k | p <= k < p + n :: s[k] != '\n'
    decreases n
  {
    var r := Groups(s, p, n);
    if r.Some? {
      GroupsEndBounds(s, p, r.value);
    } else if n > 0 && p + n <= |s| && forall k | p <= k < p + n :: s[k] != '\n' {
      GroupsExist(s, p + 1, n - 1);
      TryDigitsFinds(s, p, n, DigitRun(s, p + 1, MaxDigits));
      assert false;
    }
  }

  /** The backtracking search picks, among all ways the groups can match,
      the one leftmost-first semantics prefers (and finds one whenever one
      exists). */
  lemma {:induction false} GroupsGreedy(s: string, p: nat, n: nat, ds: seq<nat>)
    requires |ds| == n && GroupsAt(s, p, ds)
    ensures Groups(s, p, n).Some? && Prefers(Groups(s, p, n).value, ds)
    decreases n, 1, 0
  {
    if n == 0 {
    } else {
      var run := DigitRun(s, p + 1, MaxDigits);
      assert ds[0] <= run;
      TryDigitsGreedy(s, p, n, run, ds);
    }
  }

  lemma {:induction false} TryDigitsGreedy(s: string, p: nat, n: nat, d: nat, ds: seq<nat>)
    requires 0 < n && GroupAt(s, p, d)
    requires |ds| == n && GroupsAt(s, p, ds) && ds[0] <= d
    ensures TryDigits(s, p, n, d).Some? && Prefers(TryDigits(s, p, n, d).value, ds)
    decreases n, 0, d
  {
    var rest := Groups(s, p + 1 + d, n - 1);
    if d == ds[0] {
      GroupsGreedy(s, p + 1 + d, n - 1, ds[1..]);
      assert ([d] + rest.value)[1..] == rest.value;
    } else if rest.None? {
      TryDigitsGreedy(s, p, n, d - 1, ds);
    } else {
      assert ([d] + rest.value)[0] == d;
    }
  }

  /** A match starts at `i` exactly when `127` stands there followed by
      three more characters of the same line. */
  lemma MatchAtCandidate(s: string, i: nat)
    ensures MatchAt(s, i).Some? <==> Candidate(s, i)
  {
    if i + 3 <= |s| {
      GroupsExist(s, i + 3, GroupCount);
      if i + 6 <= |s| {
        ThreeOnLine(s, i + 3);
      }
    }
  }

  lemma ThreeOnLine(s: string, p: nat)
    requires p + 3 <= |s|
    ensures (forall k | p <= k < p + 3 :: s[k] != '\n') <==>
      s[p] != '\n' && s[p + 1] != '\n' && s[p + 2] != '\n'
  {
  }

  /** Replace-all from position `i`: at each position either a match
      starts, which is replaced and skipped, or the character is kept. */
  function ReplaceFrom(s: string, i: nat, repl: string): string
    requires i <= |s|
    decreases |s| - i
  {
    if i == |s| then []
    else match MatchAt(s, i)
      case Some(j) => repl + ReplaceFrom(s, j, repl)
      case None => [s[i]] + ReplaceFrom(s, i + 1, repl)
  }

  /** The host's resolver file with every match replaced, literally, by
      the text of the bridge's address. */
  function RewriteLoopback(content: string, hostIp: string): string {
    ReplaceFrom(content, 0, hostIp)
  }

  /** The left-to-right scan the regular-expression library performs. */
  method ReplaceLoopback(content: string, hostIp: string) returns (out: string)
    ensures out == RewriteLoopback(content, hostIp)
  {
    out := [];
    var i := 0;
    while i < |content|
      invariant i <= |content|
      invariant out + ReplaceFrom(content, i, hostIp) == RewriteLoopback(content, hostIp)
      decreases |content| - i
    {
      var m := MatchAt(content, i);
      if m.Some? {
        out := out + hostIp;
        i := m.value;
      } else {
        out := out + [content[i]];
        i := i + 1;
      }
    }
  }

  /** No match starts anywhere in [from, to). */
  predicate NoMatchIn(s: string, from: nat, to: nat) {
    forall q | from <= q < to :: !Candidate(s, q)
  }

  /** `spans` are the matches found scanning from `i`: each starts at the
      first position (at or after the previous one's end) where a match
      starts, and no match starts after the last one. */
  predicate LeftmostSpans(s: string, i: nat, spans: seq<(nat, nat)>)
    decreases |spans|
  {
    i <= |s| &&
    if spans == [] then NoMatchIn(s, i, |s|)
    else
      var (a, b) := spans[0];
      i <= a && NoMatchIn(s, i, a) && MatchAt(s, a) == Some(b) &&
      LeftmostSpans(s, b, spans[1..])
  }

  /** Spans in order, not overlapping, within `s` from `i` on. */
  predicate OrderedSpans(s: string, i: nat, spans: seq<(nat, nat)>)
    decreases |spans|
  {
    i <= |s| &&
    (spans == [] ||
     (i <= spans[0].0 <= spans[0].1 <= |s| && OrderedSpans(s, spans[0].1, spans[1..])))
  }

  lemma {:induction false} LeftmostOrdered(s: string, i: nat, spans: seq<(nat, nat)>)
    requires LeftmostSpans(s, i, spans)
    ensures OrderedSpans(s, i, spans)
    decreases |spans|
  {
    if spans != [] {
      LeftmostOrdered(s, spans[0].1, spans[1..]);
    }
  }

  /** The text with every span replaced by `repl`, everything else kept. */
  function Splice(s: string, i: nat, spans: seq<(nat, nat)>, repl: string): string
    requires OrderedSpans(s, i, spans)
    decreases |spans|
  {
    if spans == [] then s[i..]
    else s[i..spans[0].0] + repl + Splice(s, spans[0].1, spans[1..], repl)
  }

  lemma LeftmostExtend(s: string, i: nat, j: nat, rest: seq<(nat, nat)>)
    requires i <= |s| && MatchAt(s, i) == Some(j) && LeftmostSpans(s, j, rest)
    ensures LeftmostSpans(s, i, [(i, j)] + rest)
  {
    assert ([(i, j)] + rest)[1..] == rest;
  }

  lemma LeftmostSkip(s: string, i: nat, spans: seq<(nat, nat)>)
    requires i < |s| && !Candidate(s, i) && LeftmostSpans(s, i + 1, spans)
    ensures LeftmostSpans(s, i, spans)
  {
  }

  /** The matches scanning from `i` finds. */
  function Spans(s: string, i: nat): (spans: seq<(nat, nat)>)
    requires i <= |s|
    ensures LeftmostSpans(s, i, spans) && OrderedSpans(s, i, spans)
    decreases |s| - i
  {
    if i == |s| then []
    else match MatchAt(s, i)
      case Some(j) =>
        var rest := Spans(s, j);
        LeftmostExtend(s, i, j, rest);
        LeftmostOrdered(s, i, [(i, j)] + rest);
        [(i, j)] + rest
      case None =>
        MatchAtCandidate(s, i);
        var rest := Spans(s, i + 1);
        LeftmostSkip(s, i, rest);
        LeftmostOrdered(s, i, rest);
        rest
  }

  lemma KeepStep(s: string, i: nat, repl: string)
    requires i < |s| && !Candidate(s, i)
    ensures ReplaceFrom(s, i, repl) == [s[i]] + ReplaceFrom(s, i + 1, repl)
  {
    MatchAtCandidate(s, i);
  }

  /** A stretch in which no match starts is copied unchanged. */
  lemma {:induction false} CopyGap(s: string, i: nat, a: nat, repl: string)
    requires i <= a <= |s| && NoMatchIn(s, i, a)
    ensures ReplaceFrom(s, i, repl) == s[i..a] + ReplaceFrom(s, a, repl)
    decreases a - i
  {
    if i < a {
      KeepStep(s, i, repl);
      CopyGap(s, i + 1, a, repl);
      assert s[i..a] == [s[i]] + s[i + 1..a];
      ConsConcat(s[i], s[i + 1..a], ReplaceFrom(s, a, repl),
        ReplaceFrom(s, i, repl), ReplaceFrom(s, i + 1, repl));
    }
  }

  lemma ConsConcat(c: char, gap: string, rest: string, whole: string, tail: string)
    requires whole == [c] + tail && tail == gap + rest
    ensures whole == ([c] + gap) + rest
  {
  }

  /** Replace-all is the splice of its leftmost matches: every match is
      replaced by exactly `repl` and the text between matches is kept. */
  lemma {:induction false} ReplaceIsSplice(s: string, i: nat, spans: seq<(nat, nat)>, repl: string)
    requires LeftmostSpans(s, i, spans)
    ensures OrderedSpans(s, i, spans)
    ensures ReplaceFrom(s, i, repl) == Splice(s, i, spans, repl)
    decreases |spans|
  {
    LeftmostOrdered(s, i, spans);
    if spans == [] {
      CopyGap(s, i, |s|, repl);
    } else {
      var (a, b) := spans[0];
      CopyGap(s, i, a, repl);
      ReplaceIsSplice(s, b, spans[1..], repl);
    }
  }

  /** The rewrite is the splice of the matches the scan finds. */
  lemma RewriteIsSplice(content: string, hostIp: string)
    ensures RewriteLoopback(content, hostIp) == Splice(content, 0, Spans(content, 0), hostIp)
  {
    ReplaceIsSplice(content, 0, Spans(content, 0), hostIp);
  }

  /** Content in which no `127` is followed by three more characters of
      its line comes back unchanged. */
  lemma NoLoopbackUnchanged(content: string, hostIp: string)
    requires forall q | 0 <= q < |content| :: !Candidate(content, q)
    ensures RewriteLoopback(content, hostIp) == content
  {
    ReplaceIsSplice(content, 0, [], hostIp);
  }

  /** Every span's text is `repl`. */
  predicate SpansRead(s: string, spans: seq<(nat, nat)>, repl: string)
    decreases |spans|
  {
    spans == [] ||
    (spans[0].0 <= spans[0].1 <= |s| && s[spans[0].0..spans[0].1] == repl &&
     SpansRead(s, spans[1..], repl))
  }

  /** Matches that already read as the host address change nothing. */
  lemma {:induction false} SpliceSameText(s: string, i: nat, spans: seq<(nat, nat)>, repl: string)
    requires OrderedSpans(s, i, spans) && SpansRead(s, spans, repl)
    ensures Splice(s, i, spans, repl) == s[i..]
    decreases |spans|
  {
    if spans != [] {
      var (a, b) := spans[0];
      SpliceSameText(s, b, spans[1..], repl);
      assert Splice(s, i, spans, repl) == s[i..a] + s[a..b] + s[b..];
      assert s[i..] == s[i..a] + s[a..b] + s[b..];
    }
  }

  /** A file whose every loopback-style entry already reads as the host
      address is left as it is. */
  lemma AlreadyRewrittenUnchanged(content: string, hostIp: string)
    requires SpansRead(content, Spans(content, 0), hostIp)
    ensures RewriteLoopback(content, hostIp) == content
  {
    RewriteIsSplice(content, hostIp);
    SpliceSameText(content, 0, Spans(content, 0), hostIp);
  }

  /** When a match can start somewhere, the scan finds a first one. */
  lemma FirstSpan(s: string, q: nat)
    requires Candidate(s, q)
    ensures Spans(s, 0) != [] && Candidate(s, Spans(s, 0)[0].0)
  {
    var spans := Spans(s, 0);
    assert spans != [];
    MatchAtCandidate(s, spans[0].0);
  }

  /** The splice starts its first replacement where the first span starts. */
  lemma SpliceFirst(s: string, spans: seq<(nat, nat)>, repl: string)
    requires OrderedSpans(s, 0, spans) && spans != [] && |repl| >= 3
    ensures var a := spans[0].0;
      a + 3 <= |Splice(s, 0, spans, repl)| && Splice(s, 0, spans, repl)[a..a + 3] == repl[..3]
  {
    var a := spans[0].0;
    var out := Splice(s, 0, spans, repl);
    var rest := Splice(s, spans[0].1, spans[1..], repl);
    assert out == s[0..a] + repl + rest;
    assert out[a..a + 3] == repl[..3];
  }

  /** A file with a loopback-style entry is changed whenever the host
      address does not itself start with `127`. */
  lemma LoopbackChanged(content: string, hostIp: string, q: nat)
    requires Candidate(content, q)
    requires |hostIp| >= 3 && hostIp[..3] != "127"
    ensures RewriteLoopback(content, hostIp) != content
  {
    RewriteIsSplice(content, hostIp);
    FirstSpan(content, q);
    SpliceFirst(content, Spans(content, 0), hostIp);
  }

  /** Where the resolver file containers see lives: the rewritten copy when
      the rewrite changed anything, the host's own file otherwise. */
  function ResolvConfPathFor(content: string, hostIp: string): (path: string)
    ensures path == DockerResolvConf || path == HostResolvConf
    ensures path == DockerResolvConf <==> RewriteLoopback(content, hostIp) != content
  {
    if RewriteLoopback(content, hostIp) != content then DockerResolvConf else HostResolvConf
  }

  /** With no loopback-style entry the host's file is used as it is. */
  lemma NoLoopbackKeepsHostPath(content: string, hostIp: string)
    requires forall q | 0 <= q < |content| :: !Candidate(content, q)
    ensures ResolvConfPathFor(content, hostIp) == HostResolvConf
  {
    NoLoopbackUnchanged(content, hostIp);
  }

  /** A loopback-style entry sends containers to the rewritten copy. */
  lemma LoopbackSelectsDockerPath(content: string, hostIp: string, q: nat)
    requires Candidate(content, q)
    requires |hostIp| >= 3 && hostIp[..3] != "127"
    ensures ResolvConfPathFor(content, hostIp) == DockerResolvConf
  {
    LoopbackChanged(content, hostIp, q);
  }

  const ExampleResolv := "nameserver 127.0.1.1\n"

  lemma ExampleMatch(s: string)
    requires s == ExampleResolv
    ensures MatchAt(s, 11) == Some(20)
  {
    assert s[15] == '0' && s[16] == '.' && s[17] == '1' && s[18] == '.' && s[19] == '1' && s[20] == '\n';
    assert Groups(s, 20, 0) == Some([]);
    assert DigitRun(s, 19, MaxDigits) == 1;
    assert Groups(s, 18, 1).value == [1];
    assert DigitRun(s, 17, MaxDigits) == 1;
    assert Groups(s, 16, 2).value == [1, 1];
    assert DigitRun(s, 15, MaxDigits) == 1;
    assert Groups(s, 14, 3).value == [1, 1, 1];
    assert s[11..14] == "127";
    assert [1, 1, 1][1..] == [1, 1] && [1, 1][1..] == [1] && [1][1..] == [];
    assert GroupsEnd(14, [1, 1, 1]) == 20;
  }

  lemma ExampleSpans(s: string)
    requires s == ExampleResolv
    ensures LeftmostSpans(s, 0, [(11, 20)])
  {
    ExampleMatch(s);
    var host := "nameserver ";
    assert '1' !in host;
    forall q | 0 <= q < 11 ensures !Candidate(s, q) {
      assert s[q] == host[q];
      assert s[q..q + 3][0] == s[q];
    }
    assert NoMatchIn(s, 20, |s|);
  }

  lemma ExampleRewrite(content: string, hostIp: string)
    requires content == ExampleResolv
    ensures RewriteLoopback(content, hostIp) == content[0..11] + hostIp + content[20..]
  {
    ExampleSpans(content);
    ReplaceIsSplice(content, 0, [(11, 20)], hostIp);
  }

  lemma ExampleText(content: string, hostIp: string)
    requires content == ExampleResolv && hostIp == "10.0.3.1"
    ensures content[0..11] + hostIp + content[20..] == "nameserver 10.0.3.1\n"
    ensures content[0..11] + hostIp + content[20..] != content
  {
    assert content[0..11] == "nameserver ";
    assert content[20..] == "\n";
    assert content[12] == '2';
  }

  /** A host resolver pointing at a local caching server, with a bridge
      address of 10.0.3.1/24: the entry becomes the bridge's own address,
      and containers get the rewritten copy. */
  lemma LocalNameserverExample(content: string, hostIp: string)
    requires content == ExampleResolv && hostIp == "10.0.3.1"
    ensures RewriteLoopback(content, hostIp) == "nameserver 10.0.3.1\n"
    ensures ResolvConfPathFor(content, hostIp) == DockerResolvConf
  {
    ExampleRewrite(content, hostIp);
    ExampleText(content, hostIp);
  }
}
