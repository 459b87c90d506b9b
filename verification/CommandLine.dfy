/** Splitting a command line at its bars into trimmed stages. */
module CommandLine {
  import opened Common

  const BAR: Byte := 124
  const MAX_STAGES: nat := 8

  predicate Blank(b: Byte) {
    b == 32 || b == 9
  }

  // ----- trimming -----

  function TrimFront(s: seq<Byte>): seq<Byte> {
    if s != [] && Blank(s[0]) then TrimFront(s[1..]) else s
  }

  function TrimBack(s: seq<Byte>): seq<Byte> {
    if s != [] && Blank(s[|s| - 1]) then TrimBack(s[..|s| - 1]) else s
  }

  function Trim(s: seq<Byte>): seq<Byte> {
    TrimBack(TrimFront(s))
  }

  predicate AllBlank(s: seq<Byte>) {
    forall k | 0 <= k < |s| :: Blank(s[k])
  }

  lemma {:induction false} TrimFrontCuts(s: seq<Byte>) returns (cut: nat)
    ensures cut <= |s| && TrimFront(s) == s[cut..] && AllBlank(s[..cut]) && (cut < |s| ==> !Blank(s[cut]))
    decreases |s|
  {
    if s != [] && Blank(s[0]) {
      var c := TrimFrontCuts(s[1..]);
      cut := c + 1;
      assert s[..cut] == [s[0]] + s[1..][..c];
    } else {
      cut := 0;
    }
  }

  lemma {:induction false} TrimBackCuts(s: seq<Byte>) returns (cut: nat)
    ensures cut <= |s| && TrimBack(s) == s[..cut] && AllBlank(s[cut..]) && (cut > 0 ==> !Blank(s[cut - 1]))
    decreases |s|
  {
    if s != [] && Blank(s[|s| - 1]) {
      var n := |s| - 1;
      var init := s[..n];
      cut := TrimBackCuts(init);
      assert s[cut..] == init[cut..] + [s[n]];
      assert s[..cut] == init[..cut] && (cut > 0 ==> init[cut - 1] == s[cut - 1]);
    } else {
      cut := |s|;
    }
  }

  /** Trimming cuts spaces and tabs off both ends and nothing else. */
  lemma TrimCuts(s: seq<Byte>) returns (a: nat, b: nat)
    ensures a <= b <= |s| && Trim(s) == s[a..b]
    ensures forall k | 0 <= k < a || b <= k < |s| :: s[k] == 32 || s[k] == 9
    ensures a < b ==> s[a] != 32 && s[a] != 9 && s[b - 1] != 32 && s[b - 1] != 9
  {
    a := TrimFrontCuts(s);
    var t := s[a..];
    var c := TrimBackCuts(t);
    b := a + c;
    assert t[..c] == s[a..b] && t[c..] == s[b..];
    assert forall k | 0 <= k < a :: s[..a][k] == s[k];
    assert forall k | b <= k < |s| :: t[c..][k - b] == s[k];
    if a < b { assert t[c - 1] == s[b - 1]; }
  }

  // ----- splitting -----

  /** Position of the first bar from `i` on. */
  function FirstBar(s: seq<Byte>, i: nat): (r: nat)
    requires i <= |s|
    ensures i <= r <= |s| && (r < |s| ==> s[r] == BAR) && forall k | i <= k < r :: s[k] != BAR
    decreases |s| - i
  {
    if i == |s| || s[i] == BAR then i else FirstBar(s, i + 1)
  }

  lemma {:induction false} FirstBarIs(s: seq<Byte>, i: nat, n: nat)
    requires i <= n < |s| && s[n] == BAR && forall k | i <= k < n :: s[k] != BAR
    ensures FirstBar(s, i) == n
    decreases n - i
  {
    if i < n { FirstBarIs(s, i + 1, n); }
  }

  function Pieces(line: seq<Byte>): (ps: seq<seq<Byte>>)
    ensures ps != []
    decreases |line|
  {
    var pos := FirstBar(line, 0);
    if pos == |line| then [line] else [line[..pos]] + Pieces(line[pos + 1..])
  }

  function Joined(ps: seq<seq<Byte>>): seq<Byte>
    requires ps != []
  {
    if |ps| == 1 then ps[0] else ps[0] + [124] + Joined(ps[1..])
  }

  predicate NoBars(ps: seq<seq<Byte>>) {
    forall k | 0 <= k < |ps| :: 124 !in ps[k]
  }

  /** The pieces hold no bars and joined by bars give the line back. */
  lemma {:induction false} PiecesJoin(line: seq<Byte>)
    ensures NoBars(Pieces(line)) && Joined(Pieces(line)) == line
    decreases |line|
  {
    var pos := FirstBar(line, 0);
    if pos == |line| {
      assert BAR !in line;
    } else {
      var rest := Pieces(line[pos + 1..]);
      PiecesJoin(line[pos + 1..]);
      assert BAR !in line[..pos];
      assert Pieces(line)[1..] == rest;
      assert line == line[..pos] + [BAR] + line[pos + 1..];
    }
  }

  /** The first piece of a joined line ends at its first bar. */
  lemma JoinedFirst(ps: seq<seq<Byte>>)
    requires |ps| > 1 && BAR !in ps[0]
    ensures var line, n := Joined(ps), |ps[0]|;
      n < |line| && FirstBar(line, 0) == n && line[..n] == ps[0] && line[n + 1..] == Joined(ps[1..])
  {
    hide FirstBar;
    var line, n := Joined(ps), |ps[0]|;
    assert line == ps[0] + [BAR] + Joined(ps[1..]);
    assert forall k | 0 <= k < n :: line[k] == ps[0][k];
    FirstBarIs(line, 0, n);
  }

  /** And every list of pieces without bars comes back from the line that joins them. */
  lemma {:induction false} JoinPieces(ps: seq<seq<Byte>>)
    requires ps != [] && NoBars(ps)
    ensures Pieces(Joined(ps)) == ps
    decreases |ps|
  {
    hide FirstBar, Pieces;
    PiecesStep(Joined(ps));
    assert BAR !in ps[0];
    if |ps| > 1 {
      JoinedFirst(ps);
      assert NoBars(ps[1..]) by {
        forall k | 0 <= k < |ps[1..]| ensures BAR !in ps[1..][k] { assert ps[1..][k] == ps[k + 1]; }
      }
      JoinPieces(ps[1..]);
      var qs := Pieces(Joined(ps));
      assert ps == [ps[0]] + ps[1..] && qs == [qs[0]] + qs[1..];
    }
  }

  lemma PiecesStep(line: seq<Byte>)
    ensures var pos := FirstBar(line, 0);
      if pos == |line| then Pieces(line) == [line]
      else |Pieces(line)| > 1 && Pieces(line)[0] == line[..pos] && Pieces(line)[1..] == Pieces(line[pos + 1..])
  {
    hide FirstBar;
    var pos := FirstBar(line, 0);
    if pos < |line| {
      var head, rest := line[..pos], Pieces(line[pos + 1..]);
      assert Pieces(line) == [head] + rest;
      assert ([head] + rest)[1..] == rest;
    }
  }

  /** `find_byte`. */
  method FindBar(s: seq<Byte>) returns (r: nat)
    ensures r == FirstBar(s, 0)
  {
    r := 0;
    while r < |s| && s[r] != BAR
      invariant r <= |s| && FirstBar(s, 0) == FirstBar(s, r)
    {
      r := r + 1;
    }
  }

  /** `split_pipes`: the trimmed pieces, of which a ninth and later ones are dropped. */
  method SplitPipes(line: seq<Byte>) returns (segs: array<seq<Byte>>, n: nat)
    ensures segs.Length == 8 && fresh(segs)
    ensures n == Min(|Pieces(line)|, 8)
    ensures forall k | 0 <= k < n :: segs[k] == Trim(Pieces(line)[k])
  {
    ghost var all := Pieces(line);
    hide Pieces, Trim, FirstBar;
    segs := new seq<Byte>[MAX_STAGES](_ => []);
    n := 0;
    var rest := line;
    while n < MAX_STAGES
      invariant n <= MAX_STAGES && n < |all| && all[n..] == Pieces(rest)
      invariant forall k | 0 <= k < n :: segs[k] == Trim(all[k])
      decreases MAX_STAGES - n
    {
      var pos := FindBar(rest);
      PiecesStep(rest);
      assert all[n..][0] == all[n] && all[n..][1..] == all[n + 1..];
      if pos < |rest| {
        segs[n] := Trim(rest[..pos]);
        n := n + 1;
        rest := rest[pos + 1..];
      } else {
        segs[n] := Trim(rest);
        n := n + 1;
        return;
      }
    }
  }
}
