/** The terminal's path resolution: a stack machine over path segments. */
module PathResolve {

  const SLASH: char := '/'

  // ----- segments -----

  function Split(s: string): (r: seq<string>)
    ensures r != []
  {
    if s == [] then [[]]
    else
      var rest := Split(s[1..]);
      if s[0] == SLASH then [[]] + rest else [[s[0]] + rest[0]] + rest[1..]
  }

  function Join(parts: seq<string>): string
    requires parts != []
  {
    if |parts| == 1 then parts[0] else parts[0] + [SLASH] + Join(parts[1..])
  }

  /** A segment that is kept. */
  predicate Plain(seg: string) {
    seg != "" && seg != "." && seg != ".." && SLASH !in seg
  }

  predicate AllPlain(parts: seq<string>) {
    forall k | 0 <= k < |parts| :: Plain(parts[k])
  }

  // ----- the stack machine -----

  function Walk(parts: seq<string>, segs: seq<string>): seq<string>
    decreases |segs|
  {
    if segs == [] then parts
    else
      var next :=
        if segs[0] == "" || segs[0] == "." then parts
        else if segs[0] == ".." then (if parts == [] then [] else parts[..|parts| - 1])
        else parts + [segs[0]];
      Walk(next, segs[1..])
  }

  function Render(parts: seq<string>): string {
    if parts == [] then "/" else "/" + Join(parts)
  }

  function TrimEnd(s: string): string {
    if s != [] && s[|s| - 1] == SLASH then TrimEnd(s[..|s| - 1]) else s
  }

  predicate Absolute(s: string) {
    s != [] && s[0] == SLASH
  }

  function Base(cwd: string, input: string): string {
    if Absolute(input) then input
    else if cwd == "/" then "/" + input
    else TrimEnd(cwd) + "/" + input
  }

  /** `resolve_path`. */
  function Resolve(cwd: string, input: string): string {
    Render(Walk([], Split(Base(cwd, input))))
  }

  /** The loop over the segments. */
  method Normalise(segs: seq<string>) returns (parts: seq<string>)
    ensures parts == Walk([], segs)
  {
    parts := [];
    for i := 0 to |segs|
      invariant Walk([], segs) == Walk(parts, segs[i..])
    {
      var seg := segs[i];
      assert segs[i..][0] == seg && segs[i..][1..] == segs[i + 1..];
      if seg == "" || seg == "." {
      } else if seg == ".." {
        if parts != [] { parts := parts[..|parts| - 1]; }
      } else {
        parts := parts + [seg];
      }
    }
  }

  // ----- splitting and walking -----

  lemma SplitStep(s: string)
    requires s != []
    ensures Split(s) == if s[0] == SLASH then [[]] + Split(s[1..]) else Longer(Split(s[1..]), s[0])
  {
  }

  /** The first string with a character in front. */
  function Longer(ss: seq<string>, c: char): seq<string>
    requires ss != []
  {
    [[c] + ss[0]] + ss[1..]
  }

  lemma LongerCat(a: seq<string>, b: seq<string>, c: char)
    requires a != []
    ensures Longer(a + b, c) == Longer(a, c) + b
  {
    assert (a + b)[1..] == a[1..] + b;
  }

  lemma CatAssoc(a: seq<string>, b: seq<string>, c: seq<string>)
    ensures a + (b + c) == a + b + c
  {
  }

  lemma {:induction false} SplitSlash(a: string, b: string)
    ensures Split(a + "/" + b) == Split(a) + Split(b)
    decreases |a|
  {
    var s := a + "/" + b;
    SplitStep(s);
    if a == [] {
      assert Split(a) == [[]] && s[1..] == b;
    } else {
      hide Split, Longer;
      SplitStep(a);
      SplitSlash(a[1..], b);
      assert s[0] == a[0] && s[1..] == a[1..] + "/" + b;
      if a[0] == SLASH {
        CatAssoc([[]], Split(a[1..]), Split(b));
      } else {
        LongerCat(Split(a[1..]), Split(b), a[0]);
      }
    }
  }

  lemma {:induction false} WalkCat(parts: seq<string>, a: seq<string>, b: seq<string>)
    ensures Walk(parts, a + b) == Walk(Walk(parts, a), b)
    decreases |a|
  {
    if a == [] {
      assert a + b == b;
    } else {
      assert (a + b)[1..] == a[1..] + b;
      var next :=
        if a[0] == "" || a[0] == "." then parts
        else if a[0] == ".." then (if parts == [] then [] else parts[..|parts| - 1])
        else parts + [a[0]];
      WalkCat(next, a[1..], b);
    }
  }

  lemma {:induction false} WalkPlain(parts: seq<string>, segs: seq<string>)
    requires AllPlain(segs)
    ensures Walk(parts, segs) == parts + segs
    decreases |segs|
  {
    if segs != [] {
      assert Plain(segs[0]);
      WalkPlain(parts + [segs[0]], segs[1..]);
      assert parts + [segs[0]] + segs[1..] == parts + segs;
    }
  }

  lemma {:induction false} SplitNoSlash(s: string)
    ensures forall k | 0 <= k < |Split(s)| :: SLASH !in Split(s)[k]
  {
    if s != [] { SplitNoSlash(s[1..]); }
  }

  lemma {:induction false} WalkKeepsPlain(parts: seq<string>, segs: seq<string>)
    requires AllPlain(parts) && forall k | 0 <= k < |segs| :: SLASH !in segs[k]
    ensures AllPlain(Walk(parts, segs))
    decreases |segs|
  {
    if segs != [] {
      assert SLASH !in segs[0];
      var next :=
        if segs[0] == "" || segs[0] == "." then parts
        else if segs[0] == ".." then (if parts == [] then [] else parts[..|parts| - 1])
        else parts + [segs[0]];
      WalkKeepsPlain(next, segs[1..]);
    }
  }

  lemma {:induction false} SplitPlain(s: string)
    requires SLASH !in s
    ensures Split(s) == [s]
  {
    if s != [] {
      SplitPlain(s[1..]);
      assert [s[0]] + s[1..] == s;
    }
  }

  lemma {:induction false} SplitJoin(parts: seq<string>)
    requires parts != [] && AllPlain(parts)
    ensures Split(Join(parts)) == parts
    decreases |parts|
  {
    assert Plain(parts[0]);
    SplitPlain(parts[0]);
    if |parts| > 1 {
      SplitJoin(parts[1..]);
      SplitSlash(parts[0], Join(parts[1..]));
      assert parts == [parts[0]] + parts[1..];
    }
  }

  /** Walking a rendered path gives its parts back. */
  lemma WalkRender(parts: seq<string>)
    requires AllPlain(parts)
    ensures Walk([], Split(Render(parts))) == parts
  {
    if parts == [] {
      assert Split("/") == [""] + Split("");
    } else {
      SplitSlash("", Join(parts));
      assert "" + "/" + Join(parts) == Render(parts);
      SplitJoin(parts);
      WalkCat([], [""], parts);
      WalkPlain([], parts);
    }
  }

  lemma {:induction false} WalkTrim(s: string)
    ensures Walk([], Split(TrimEnd(s))) == Walk([], Split(s))
    decreases |s|
  {
    if s != [] && s[|s| - 1] == SLASH {
      var t := s[..|s| - 1];
      WalkTrim(t);
      assert s == t + "/" + "";
      SplitSlash(t, "");
      WalkCat([], Split(t), [""]);
    }
  }

  /** A relative path continues from where the current directory leads; an absolute one from the root. */
  lemma WalkBase(cwd: string, input: string)
    ensures Walk([], Split(Base(cwd, input))) ==
      Walk(if Absolute(input) then [] else Walk([], Split(cwd)), Split(input))
  {
    if !Absolute(input) {
      var head := if cwd == "/" then "" else TrimEnd(cwd);
      assert Base(cwd, input) == head + "/" + input;
      SplitSlash(head, input);
      WalkCat([], Split(head), Split(input));
      WalkTrim(cwd);
      if cwd == "/" { assert Split("/") == [""] + Split(""); }
    }
  }

  // ----- what resolution promises -----

  /** Every result is the root or a path of plain segments, which resolving again leaves alone. */
  lemma ResolvedIsNormal(cwd: string, input: string, any: string) returns (parts: seq<string>)
    ensures parts == Walk([], Split(Base(cwd, input))) && AllPlain(parts) && Resolve(cwd, input) == Render(parts)
    ensures Resolve(any, Resolve(cwd, input)) == Resolve(cwd, input)
  {
    parts := Walk([], Split(Base(cwd, input)));
    SplitNoSlash(Base(cwd, input));
    WalkKeepsPlain([], Split(Base(cwd, input)));
    WalkRender(parts);
    assert Absolute(Render(parts));
  }

  /** Resolving one path and then a relative one from there is resolving both at once. */
  lemma ResolveTwice(cwd: string, p: string, q: string)
    requires p != "" && !Absolute(q)
    ensures Resolve(Resolve(cwd, p), q) == Resolve(cwd, p + "/" + q)
  {
    var parts := ResolvedIsNormal(cwd, p, cwd);
    WalkBase(cwd, p);
    WalkRender(Walk([], Split(Base(cwd, p))));
    WalkBase(Resolve(cwd, p), q);
    WalkBase(cwd, p + "/" + q);
    SplitSlash(p, q);
    WalkCat(if Absolute(p) then [] else Walk([], Split(cwd)), Split(p), Split(q));
    assert Absolute(p + "/" + q) == Absolute(p);
  }

  /** Adding a segment to a path: what the stack becomes. */
  lemma WalkOneMore(cwd: string, p: string, seg: string)
    requires p != "" && SLASH !in seg
    ensures Walk([], Split(Base(cwd, p + "/" + seg))) == Walk(Walk([], Split(Base(cwd, p))), [seg])
  {
    WalkBase(cwd, p);
    WalkBase(cwd, p + "/" + seg);
    assert Absolute(p + "/" + seg) == Absolute(p);
    SplitSlash(p, seg);
    SplitPlain(seg);
    WalkCat(if Absolute(p) then [] else Walk([], Split(cwd)), Split(p), [seg]);
  }

  lemma {:induction false} JoinSnoc(parts: seq<string>, seg: string)
    requires parts != []
    ensures Join(parts + [seg]) == Join(parts) + [SLASH] + seg
    decreases |parts|
  {
    if |parts| == 1 {
      assert (parts + [seg])[1..] == [seg];
    } else {
      JoinSnoc(parts[1..], seg);
      assert (parts + [seg])[1..] == parts[1..] + [seg];
      assert parts[0] + [SLASH] + (Join(parts[1..]) + [SLASH] + seg) == parts[0] + [SLASH] + Join(parts[1..]) + [SLASH] + seg;
    }
  }

  lemma RenderSnoc(parts: seq<string>, seg: string)
    requires AllPlain(parts)
    ensures Render(parts + [seg]) == if Render(parts) == "/" then "/" + seg else Render(parts) + "/" + seg
  {
    if parts != [] {
      assert Plain(parts[0]);
      JoinSnoc(parts, seg);
      assert Join(parts) != "";
      assert Render(parts)[1..] == Join(parts);
      assert "/" + (Join(parts) + [SLASH] + seg) == "/" + Join(parts) + "/" + seg;
    } else {
      assert parts + [seg] == [seg];
    }
  }

  lemma WalkOne(parts: seq<string>, seg: string)
    ensures seg == "" || seg == "." ==> Walk(parts, [seg]) == parts
    ensures Plain(seg) ==> Walk(parts, [seg]) == parts + [seg]
    ensures Walk(parts + [seg], [".."]) == parts && Walk([], [".."]) == []
  {
    assert (parts + [seg])[..|parts|] == parts;
    assert [seg][1..] == [] && [".."][1..] == [];
    var up := [".."];
    assert Walk(parts + [seg], up) == Walk(parts, up[1..]);
  }

  /** A plain segment goes one directory down. */
  lemma DownAppends(cwd: string, p: string, seg: string)
    requires p != "" && Plain(seg)
    ensures var at := Resolve(cwd, p);
      Resolve(cwd, p + "/" + seg) == if at == "/" then "/" + seg else at + "/" + seg
  {
    hide Walk, Split, Base, Render;
    WalkOneMore(cwd, p, seg);
    var parts := ResolvedIsNormal(cwd, p, cwd);
    WalkOne(parts, seg);
    RenderSnoc(parts, seg);
  }

  /** `..` goes back up from there, ... */
  lemma UpUndoesDown(cwd: string, p: string, seg: string)
    requires p != "" && Plain(seg)
    ensures Resolve(cwd, p + "/" + seg + "/..") == Resolve(cwd, p)
  {
    hide Walk, Split, Base, Render;
    var parts := Walk([], Split(Base(cwd, p)));
    WalkOneMore(cwd, p, seg);
    WalkOneMore(cwd, p + "/" + seg, "..");
    assert p + "/" + seg + "/.." == p + "/" + seg + "/" + "..";
    WalkOne(parts, seg);
  }

  /** ... and stays at the root; `.` and an empty segment stay anywhere. */
  lemma StayThere(cwd: string, p: string)
    requires p != ""
    ensures Resolve(cwd, p + "/.") == Resolve(cwd, p) && Resolve(cwd, p + "/") == Resolve(cwd, p)
    ensures Resolve(cwd, p) == "/" ==> Resolve(cwd, p + "/..") == "/"
  {
    hide Walk, Split, Base;
    var parts := ResolvedIsNormal(cwd, p, cwd);
    WalkOneMore(cwd, p, ".");
    WalkOneMore(cwd, p, "");
    WalkOneMore(cwd, p, "..");
    assert p + "/." == p + "/" + "." && p + "/" == p + "/" + "" && p + "/.." == p + "/" + "..";
    WalkOne(parts, ".");
    WalkOne(parts, "");
    if parts != [] {
      assert Plain(parts[0]);
      assert Join(parts) != "" && Render(parts)[1..] == Join(parts);
    }
  }

  /** An absolute path does not depend on the current directory, and a relative one is looked up from it. */
  lemma FromWhere(cwd: string, other: string, p: string)
    ensures Absolute(p) ==> Resolve(cwd, p) == Resolve(other, p)
    ensures !Absolute(p) && cwd != "" ==> Resolve(cwd, p) == Resolve(other, "/" + cwd + "/" + p)
  {
    WalkBase(cwd, p);
    WalkBase(other, p);
    if !Absolute(p) && cwd != "" {
      var q := "/" + cwd + "/" + p;
      WalkBase(other, q);
      assert "/" + cwd == "" + "/" + cwd;
      SplitSlash("", cwd);
      SplitSlash("/" + cwd, p);
      WalkCat([], Split("/" + cwd), Split(p));
      WalkCat([], [""], Split(cwd));
    }
  }
}
