/** A checker for HTML fragments: tags are properly nested, their attributes are quoted, and no angle
    bracket stands outside a tag. */
module MarkdownHtml {
  import opened Common

  /** First position from `i` on that holds `c`, or the length. */
  function IndexOf(s: string, c: char, i: nat): (k: nat)
    requires i <= |s|
    ensures i <= k <= |s| && (k < |s| ==> s[k] == c) && c !in s[i..k]
    decreases |s| - i
  {
    if i == |s| || s[i] == c then i else IndexOf(s, c, i + 1)
  }

  predicate IsVoid(name: string) {
    name == "img" || name == "br" || name == "hr"
  }

  /** ` key="value"` any number of times. */
  predicate AttributesOk(s: string)
    decreases |s|
  {
    s == "" ||
    (s[0] == ' ' &&
     var eq := IndexOf(s, '=', 1);
     eq + 1 < |s| && s[eq + 1] == '"' && ' ' !in s[1..eq] && '"' !in s[1..eq] &&
     var q := IndexOf(s, '"', eq + 2);
     q < |s| && AttributesOk(s[q + 1..]))
  }

  function Name(tag: string): string {
    tag[..IndexOf(tag, ' ', 0)]
  }

  /** The open elements after the fragment `s`, starting inside the elements `open`. */
  function Scan(s: string, open: seq<string>): (r: Option<seq<string>>)
    decreases |s|
  {
    if s == "" then Some(open)
    else if s[0] == '>' then None
    else if s[0] != '<' then Scan(s[1..], open)
    else
      var k := IndexOf(s, '>', 1);
      if k == |s| then None
      else
        var tag, rest := s[1..k], s[k + 1..];
        if tag == "" || '<' in tag then None
        else if tag[0] == '/' then
          if open != [] && open[|open| - 1] == tag[1..] then Scan(rest, open[..|open| - 1]) else None
        else if !AttributesOk(tag[|Name(tag)|..]) then None
        else if IsVoid(Name(tag)) then Scan(rest, open)
        else Scan(rest, open + [Name(tag)])
  }

  /** Properly nested, with every element closed. */
  predicate Balanced(s: string) {
    Scan(s, []) == Some([])
  }

  // ----- fragments that can stand anywhere -----

  /** The checker passes over `s`, whatever surrounds it. */
  ghost predicate Neutral(s: string) {
    forall rest: string, open: seq<string> :: Scan(s + rest, open) == Scan(rest, open)
  }

  lemma NeutralBalanced(s: string)
    requires Neutral(s)
    ensures Balanced(s)
  {
    assert s + "" == s;
    assert Scan(s + "", []) == Scan("", []);
  }

  lemma NeutralCat(a: string, b: string)
    requires Neutral(a) && Neutral(b)
    ensures Neutral(a + b)
  {
    forall rest: string, open: seq<string> ensures Scan((a + b) + rest, open) == Scan(rest, open) {
      assert (a + b) + rest == a + (b + rest);
    }
  }

  predicate Clean(s: string) {
    '<' !in s && '>' !in s
  }

  lemma {:induction false} NeutralClean(s: string)
    requires Clean(s)
    ensures Neutral(s)
    decreases |s|
  {
    forall rest: string, open: seq<string> ensures Scan(s + rest, open) == Scan(rest, open) {
      if s == "" {
        assert s + rest == rest;
      } else {
        assert s[0] in s;
        assert forall c :: c in s[1..] ==> c in s;
        NeutralClean(s[1..]);
        assert (s + rest)[1..] == s[1..] + rest;
      }
    }
  }

  // ----- tags -----

  lemma {:induction false} IndexIs(s: string, c: char, i: nat, k: nat)
    requires i <= k < |s| && s[k] == c && c !in s[i..k]
    ensures IndexOf(s, c, i) == k
    decreases k - i
  {
    if i < k {
      assert s[i] == s[i..k][0];
      assert s[i..k][1..] == s[i + 1..k];
      IndexIs(s, c, i + 1, k);
    }
  }

  lemma TagEnd(tag: string, rest: string)
    requires '>' !in tag
    ensures IndexOf("<" + tag + ">" + rest, '>', 1) == |tag| + 1
  {
    var s := "<" + tag + ">" + rest;
    assert s[1..|tag| + 1] == tag;
    IndexIs(s, '>', 1, |tag| + 1);
  }

  function Tag(name: string, attrs: string): string {
    "<" + (name + attrs) + ">"
  }

  function EndTag(name: string): string {
    "</" + name + ">"
  }

  /** Parts that make a tag the checker accepts. */
  predicate PartsOk(name: string, attrs: string) {
    && name != "" && name[0] != '/' && Clean(name) && ' ' !in name
    && Clean(attrs) && AttributesOk(attrs)
  }

  lemma AttributesSpace(s: string)
    requires AttributesOk(s)
    ensures s == "" || s[0] == ' '
  {
  }

  lemma ScanOpening(s: string, tag: string, rest: string, open: seq<string>)
    requires s == "<" + tag + ">" + rest && '>' !in tag
    requires tag != "" && '<' !in tag && tag[0] != '/' && AttributesOk(tag[|Name(tag)|..])
    ensures Scan(s, open) == Scan(rest, if IsVoid(Name(tag)) then open else open + [Name(tag)])
  {
    hide AttributesOk, Name, IsVoid, IndexOf;
    TagEnd(tag, rest);
    assert s[1..|tag| + 1] == tag && s[|tag| + 2..] == rest;
  }

  lemma OpenTag(name: string, attrs: string, rest: string, open: seq<string>)
    requires PartsOk(name, attrs)
    ensures Scan(Tag(name, attrs) + rest, open) == Scan(rest, if IsVoid(name) then open else open + [name])
  {
    hide Scan, AttributesOk, Name, IsVoid;
    var tag := name + attrs;
    AttributesSpace(attrs);
    NameOf(name, attrs);
    assert tag[0] == name[0];
    ScanOpening(Tag(name, attrs) + rest, tag, rest, open);
  }

  lemma CloseTag(name: string, rest: string, open: seq<string>)
    requires Clean(name)
    ensures Scan(EndTag(name) + rest, open + [name]) == Scan(rest, open)
  {
    var tag := "/" + name;
    var s := EndTag(name) + rest;
    assert s == "<" + tag + ">" + rest;
    TagEnd(tag, rest);
    assert s[1..|tag| + 1] == tag && s[|tag| + 2..] == rest && tag[1..] == name;
    assert (open + [name])[..|open|] == open;
  }

  lemma NeutralVoid(name: string, attrs: string)
    requires PartsOk(name, attrs) && IsVoid(name)
    ensures Neutral(Tag(name, attrs))
  {
    forall rest: string, open: seq<string> ensures Scan(Tag(name, attrs) + rest, open) == Scan(rest, open) {
      OpenTag(name, attrs, rest, open);
    }
  }

  function Element(name: string, attrs: string, inner: string): string {
    Tag(name, attrs) + inner + EndTag(name)
  }

  lemma NeutralElement(name: string, attrs: string, inner: string)
    requires PartsOk(name, attrs) && !IsVoid(name) && Neutral(inner)
    ensures Neutral(Element(name, attrs, inner))
  {
    hide Scan, AttributesOk, Tag, EndTag;
    forall rest: string, open: seq<string> ensures Scan(Element(name, attrs, inner) + rest, open) == Scan(rest, open) {
      var close := EndTag(name) + rest;
      assert Element(name, attrs, inner) + rest == Tag(name, attrs) + (inner + close);
      OpenTag(name, attrs, inner + close, open);
      assert Scan(inner + close, open + [name]) == Scan(close, open + [name]);
      CloseTag(name, rest, open);
    }
  }

  // ----- attributes -----

  function Attr(key: string, value: string): string {
    " " + key + "=\"" + value + "\""
  }

  lemma AttributesStep(s: string, n: nat, m: nat)
    requires 0 < n && n + 2 <= m < |s| && s[0] == ' ' && s[n + 1] == '"'
    requires IndexOf(s, '=', 1) == n && IndexOf(s, '"', n + 2) == m && ' ' !in s[1..n] && '"' !in s[1..n]
    requires AttributesOk(s[m + 1..])
    ensures AttributesOk(s)
  {
    hide IndexOf;
  }

  lemma AttributeOk(key: string, value: string, tail: string)
    requires '=' !in key && ' ' !in key && '"' !in key && '"' !in value
    requires AttributesOk(tail)
    ensures AttributesOk(Attr(key, value) + tail)
    ensures Clean(key) && Clean(value) && Clean(tail) ==> Clean(Attr(key, value) + tail)
  {
    hide AttributesOk, IndexOf;
    var s := Attr(key, value) + tail;
    var n := |key| + 1;
    var m := n + 2 + |value|;
    assert s[1..n] == key && s[n + 2..m] == value && s[m + 1..] == tail;
    IndexIs(s, '=', 1, n);
    IndexIs(s, '"', n + 2, m);
    AttributesStep(s, n, m);
  }

  lemma NameOf(name: string, attrs: string)
    requires ' ' !in name && (attrs == "" || attrs[0] == ' ')
    ensures Name(name + attrs) == name && (name + attrs)[|name|..] == attrs
  {
    var tag := name + attrs;
    if attrs == "" {
      assert tag == name;
      assert tag[0..] == name;
    } else {
      assert tag[0..|name|] == name;
      IndexIs(tag, ' ', 0, |name|);
    }
  }
}
