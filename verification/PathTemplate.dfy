/** Path templates of operations: the preflight's placeholder scan and the substitution of a request. */
module PathTemplates {
  import opened Text
  import opened Percent
  import P = Pointers

  datatype Piece = Lit(text: string) | Hole(name: string)

  function Show(p: Piece): string {
    match p case Lit(t) => t case Hole(n) => "{" + n + "}"
  }

  function Flatten(pieces: seq<Piece>): string {
    if pieces == [] then "" else Show(pieces[0]) + Flatten(pieces[1..])
  }

  function Names(pieces: seq<Piece>): seq<string> {
    if pieces == [] then []
    else (if pieces[0].Hole? then [pieces[0].name] else []) + Names(pieces[1..])
  }

  // The scan: findall of \{([^}]+)\}

  function Until(s: string, c: char): nat
    ensures Until(s, c) <= |s|
  {
    if s == "" || s[0] == c then 0 else 1 + Until(s[1..], c)
  }

  /** The length of the name of a placeholder at the start of s; 0 if there is none. */
  function HoleAt(s: string): nat
    ensures HoleAt(s) > 0 ==> |s| >= HoleAt(s) + 2
  {
    if s != "" && s[0] == '{' then
      var end := Until(s[1..], '}');
      if end < |s| - 1 then end else 0
    else 0
  }

  function FindAll(s: string): seq<string>
    decreases |s|
  {
    if s == "" then []
    else if HoleAt(s) > 0 then [s[1..HoleAt(s) + 1]] + FindAll(s[HoleAt(s) + 2..])
    else FindAll(s[1..])
  }

  /** No placeholder starts inside the literal text t when rest follows it. */
  predicate NoHole(t: string, rest: string) {
    forall i :: 0 <= i < |t| ==> HoleAt(t[i..] + rest) == 0
  }

  /** A reading of a template: placeholders, and literal text in which none starts. */
  predicate IsReading(pieces: seq<Piece>) {
    pieces == [] || (IsReading(pieces[1..]) &&
      match pieces[0] case Lit(t) => NoHole(t, Flatten(pieces[1..])) case Hole(n) => n != "" && '}' !in n)
  }

  lemma {:induction false} UntilAfter(s: string, c: char, rest: string)
    requires c !in s
    ensures Until(s + [c] + rest, c) == |s|
  {
    if s != "" {
      UntilAfter(s[1..], c, rest);
      assert (s + [c] + rest)[1..] == s[1..] + [c] + rest;
    }
  }

  lemma {:induction false} UntilMeans(s: string, c: char)
    ensures c !in s[..Until(s, c)] && (Until(s, c) < |s| ==> s[Until(s, c)] == c)
  {
    if s != "" && s[0] != c {
      UntilMeans(s[1..], c);
      assert s[..Until(s, c)] == [s[0]] + s[1..][..Until(s[1..], c)];
    }
  }

  lemma HoleAtMeans(s: string)
    requires HoleAt(s) > 0
    ensures var name := s[1..HoleAt(s) + 1]; name != "" && '}' !in name && s == "{" + name + "}" + s[HoleAt(s) + 2..]
  {
    var n := HoleAt(s);
    UntilMeans(s[1..], '}');
    assert s[1..][..n] == s[1..n + 1] && s[1..][n] == s[n + 1];
  }

  lemma HoleFound(name: string, rest: string)
    requires name != "" && '}' !in name
    ensures HoleAt("{" + name + "}" + rest) == |name|
  {
    var s := "{" + name + "}" + rest;
    assert s[1..] == name + ['}'] + rest;
    UntilAfter(name, '}', rest);
  }

  /** Every template has such a reading. */
  lemma {:induction false} EveryTemplateHasReading(s: string) returns (pieces: seq<Piece>)
    ensures IsReading(pieces) && Flatten(pieces) == s
    decreases |s|
  {
    if s == "" {
      pieces := [];
    } else if HoleAt(s) > 0 {
      var rest := EveryTemplateHasReading(s[HoleAt(s) + 2..]);
      pieces := [Hole(s[1..HoleAt(s) + 1])] + rest;
      HoleAtMeans(s);
      assert pieces[1..] == rest;
    } else {
      var rest := EveryTemplateHasReading(s[1..]);
      pieces := [Lit([s[0]])] + rest;
      assert pieces[1..] == rest && [s[0]][0..] + s[1..] == s;
    }
  }

  lemma {:induction false} ScanSkips(t: string, rest: string)
    requires NoHole(t, rest)
    ensures FindAll(t + rest) == FindAll(rest)
  {
    if t != "" {
      assert forall i :: 0 <= i < |t[1..]| ==> t[1..][i..] == t[i + 1..];
      ScanSkips(t[1..], rest);
      assert t[0..] + rest == t + rest && (t + rest)[1..] == t[1..] + rest;
    } else {
      assert t + rest == rest;
    }
  }

  lemma ScanFinds(name: string, rest: string)
    requires name != "" && '}' !in name
    ensures FindAll("{" + name + "}" + rest) == [name] + FindAll(rest)
  {
    hide HoleAt;
    var s := "{" + name + "}" + rest;
    HoleFound(name, rest);
    assert s[1..|name| + 1] == name && s[|name| + 2..] == rest;
  }

  /** The scan of a template yields its placeholder names in order. */
  lemma {:induction false} ScanYieldsNames(pieces: seq<Piece>)
    requires IsReading(pieces)
    ensures FindAll(Flatten(pieces)) == Names(pieces)
  {
    if pieces != [] {
      ScanYieldsNames(pieces[1..]);
      var rest := Flatten(pieces[1..]);
      match pieces[0] {
        case Lit(t) => ScanSkips(t, rest);
        case Hole(n) =>
          ScanFinds(n, rest);
          assert Flatten(pieces) == "{" + n + "}" + rest;
      }
    }
  }

  // Counting characters

  function Occurs(s: string, c: char): nat {
    if s == "" then 0 else (if s[0] == c then 1 else 0) + Occurs(s[1..], c)
  }

  lemma {:induction false} OccursPlus(a: string, b: string, c: char)
    ensures Occurs(a + b, c) == Occurs(a, c) + Occurs(b, c)
  {
    if a == "" {
      assert a + b == b;
    } else {
      OccursPlus(a[1..], b, c);
      assert (a + b)[1..] == a[1..] + b;
    }
  }

  lemma {:induction false} OccursNot(s: string, c: char)
    requires c !in s
    ensures Occurs(s, c) == 0
  {
    if s != "" { OccursNot(s[1..], c); }
  }

  // The substitution

  datatype Param = Param(key: string, text: string)

  datatype Outcome = Path(path: string) | DotSegment

  predicate IsDots(s: string) { s == "." || s == ".." }

  function Sequential(path: string, params: seq<Param>): Outcome
    decreases |params|
  {
    if params == [] then Path(path)
    else if IsDots(Quote(params[0].text)) then DotSegment
    else Sequential(Replace(path, "{" + params[0].key + "}", Quote(params[0].text)), params[1..])
  }

  /** A dot segment is quoted as itself, and nothing else is. */
  lemma DotsExactly(s: string)
    ensures IsDots(Quote(s)) <==> s == "." || s == ".."
  {
    hide Quote;
    QuotePlain(".");
    QuotePlain("..");
    if Quote(s) == "." { QuoteInjective(s, "."); }
    if Quote(s) == ".." { QuoteInjective(s, ".."); }
  }

  /** The substitution is refused exactly when some parameter is "." or "..". */
  lemma {:induction false} DotSegmentExactly(path: string, params: seq<Param>)
    ensures Sequential(path, params) == DotSegment <==>
              exists i :: 0 <= i < |params| && (params[i].text == "." || params[i].text == "..")
    decreases |params|
  {
    hide Quote, Replace;
    if params != [] {
      DotsExactly(params[0].text);
      DotSegmentExactly(Replace(path, "{" + params[0].key + "}", Quote(params[0].text)), params[1..]);
      forall i | 0 < i < |params| ensures params[i] == params[1..][i - 1] { }
    }
  }

  /** The loop over the path parameters of a step, in the order of the dictionary. */
  method SubstitutePath(template: string, params: seq<Param>) returns (r: Outcome)
    ensures r == Sequential(template, params)
    ensures r == DotSegment <==> exists i :: 0 <= i < |params| && (params[i].text == "." || params[i].text == "..")
  {
    DotSegmentExactly(template, params);
    var path := template;
    for i := 0 to |params|
      invariant Sequential(path, params[i..]) == Sequential(template, params)
    {
      assert params[i..][0] == params[i] && params[i..][1..] == params[i + 1..];
      var encoded := Quote(params[i].text);
      if IsDots(encoded) { return DotSegment; }
      path := Replace(path, "{" + params[i].key + "}", encoded);
    }
    r := Path(path);
  }

  /** All placeholders of one name filled. */
  function FillOne(pieces: seq<Piece>, key: string, text: string): seq<Piece> {
    seq(|pieces|, i requires 0 <= i < |pieces| => if pieces[i] == Hole(key) then Lit(text) else pieces[i])
  }

  predicate BraceFree(s: string) { '{' !in s && '}' !in s }

  /** The placeholder of the shorter name stands at the end of the placeholder of the longer one. */
  predicate Nested(name: string, key: string) {
    |name| > |key| && name[|name| - |key| - 1..] == "{" + key
  }

  predicate StartsWith(s: string, p: string) { |s| >= |p| && s[..|p|] == p }

  predicate IsKey(key: string) { key != "" && '}' !in key }

  lemma ShortStays(s: string, pattern: string, replacement: string)
    requires |s| < |pattern|
    ensures Replace(s, pattern, replacement) == s
  {
  }

  lemma CharSkips(c: char, rest: string, pattern: string, replacement: string)
    requires pattern != "" && !StartsWith([c] + rest, pattern)
    ensures Replace([c] + rest, pattern, replacement) == [c] + Replace(rest, pattern, replacement)
  {
    var s := [c] + rest;
    assert s[1..] == rest;
    if |s| < |pattern| { ShortStays(rest, pattern, replacement); }
  }

  lemma {:induction false} ReplaceSkips(t: string, rest: string, pattern: string, replacement: string)
    requires pattern != "" && forall i :: 0 <= i < |t| ==> !StartsWith(t[i..] + rest, pattern)
    ensures Replace(t + rest, pattern, replacement) == t + Replace(rest, pattern, replacement)
  {
    hide Replace, StartsWith;
    if t == "" {
      assert t + rest == rest;
    } else {
      forall i | 0 <= i < |t[1..]| ensures !StartsWith(t[1..][i..] + rest, pattern) {
        assert t[1..][i..] == t[i + 1..];
      }
      ReplaceSkips(t[1..], rest, pattern, replacement);
      assert t[0..] + rest == t + rest == [t[0]] + (t[1..] + rest);
      CharSkips(t[0], t[1..] + rest, pattern, replacement);
    }
  }

  /** Where the braced key stands, the scan finds the key. */
  lemma StartsHole(s: string, key: string)
    requires IsKey(key) && StartsWith(s, "{" + key + "}")
    ensures HoleAt(s) == |key|
  {
    assert s == "{" + key + "}" + s[|key| + 2..];
    HoleFound(key, s[|key| + 2..]);
  }

  lemma LiteralSkips(t: string, rest: string, key: string, text: string)
    requires NoHole(t, rest) && IsKey(key)
    ensures Replace(t + rest, "{" + key + "}", text) == t + Replace(rest, "{" + key + "}", text)
  {
    forall i | 0 <= i < |t| ensures !StartsWith(t[i..] + rest, "{" + key + "}") {
      if StartsWith(t[i..] + rest, "{" + key + "}") { StartsHole(t[i..] + rest, key); }
    }
    ReplaceSkips(t, rest, "{" + key + "}", text);
  }

  lemma NoEmptyHole(rest: string, key: string)
    requires IsKey(key)
    ensures !StartsWith("{}" + rest, "{" + key + "}")
  {
    hide StartsWith;
    var s := "{}" + rest;
    assert s[1..][0] == '}' && HoleAt(s) == 0;
    if StartsWith(s, "{" + key + "}") { StartsHole(s, key); }
  }

  /** Where the braced key stands inside a placeholder, it is the end of its name. */
  lemma StartsInside(name: string, key: string, rest: string, i: nat)
    requires IsKey(name) && IsKey(key) && i < |name| + 2
    requires StartsWith(("{" + name + "}")[i..] + rest, "{" + key + "}")
    ensures i <= |name| && |key| == |name| - i && (if i == 0 then key == name else Nested(name, key))
  {
    var u := "{" + name + "}";
    assert (u[i..] + rest)[0] == u[i];
    var tail := name[i..];
    assert u[i..] + rest == "{" + tail + "}" + rest;
    NoEmptyHole(rest, key);
    assert "{" + "" + "}" + rest == "{}" + rest;
    if tail != "" {
      StartsHole("{" + tail + "}" + rest, key);
      HoleFound(tail, rest);
      assert ("{" + tail + "}" + rest)[..|key| + 2] == "{" + key + "}";
      assert ("{" + tail + "}" + rest)[1..|key| + 1] == tail && ("{" + key + "}")[1..|key| + 1] == key;
      if i > 0 { assert name[i - 1] == u[i] && name[i - 1..] == "{" + tail; }
    }
  }

  lemma HoleSkips(name: string, key: string, rest: string, text: string)
    requires IsKey(name) && IsKey(key) && name != key && !Nested(name, key)
    ensures Replace("{" + name + "}" + rest, "{" + key + "}", text)
              == "{" + name + "}" + Replace(rest, "{" + key + "}", text)
  {
    var u := "{" + name + "}";
    forall i | 0 <= i < |u| ensures !StartsWith(u[i..] + rest, "{" + key + "}") {
      if StartsWith(u[i..] + rest, "{" + key + "}") { StartsInside(name, key, rest, i); }
    }
    ReplaceSkips(u, rest, "{" + key + "}", text);
  }

  /** No placeholder of the pieces ends with the placeholder of this key. */
  predicate Apart(pieces: seq<Piece>, key: string) {
    forall i :: 0 <= i < |pieces| && pieces[i].Hole? ==> !Nested(pieces[i].name, key)
  }

  lemma FillOneCons(pieces: seq<Piece>, key: string, text: string)
    requires pieces != []
    ensures FillOne(pieces, key, text) != [] && FillOne(pieces, key, text)[1..] == FillOne(pieces[1..], key, text)
    ensures FillOne(pieces, key, text)[0] == if pieces[0] == Hole(key) then Lit(text) else pieces[0]
  {
  }

  /** Replacing the braced key in the text of a template fills exactly the placeholders of that name, unless
      some placeholder ends with it. */
  lemma {:induction false} ReplaceFills(pieces: seq<Piece>, key: string, text: string)
    requires IsReading(pieces) && IsKey(key) && Apart(pieces, key)
    ensures Replace(Flatten(pieces), "{" + key + "}", text) == Flatten(FillOne(pieces, key, text))
  {
    hide Replace, Nested;
    var pattern := "{" + key + "}";
    if pieces == [] {
      ShortStays("", pattern, text);
    } else {
      var rest := Flatten(pieces[1..]);
      assert forall i :: 0 <= i < |pieces[1..]| ==> pieces[1..][i] == pieces[i + 1];
      ReplaceFills(pieces[1..], key, text);
      FillOneCons(pieces, key, text);
      match pieces[0] {
        case Lit(t) => LiteralSkips(t, rest, key, text);
        case Hole(n) =>
          if n == key { P.ReplaceHit(rest, pattern, text); } else { HoleSkips(n, key, rest, text); }
      }
    }
  }

  // Where it does not

  /** How many placeholders of the pieces the replacement of this key destroys. */
  function Hits(pieces: seq<Piece>, key: string): nat {
    if pieces == [] then 0
    else
      var hit := pieces[0].Hole? && (pieces[0].name == key || Nested(pieces[0].name, key));
      (if hit then 1 else 0) + Hits(pieces[1..], key)
  }

  /** How many are of this key. */
  function Count(pieces: seq<Piece>, key: string): nat {
    if pieces == [] then 0 else (if pieces[0] == Hole(key) then 1 else 0) + Count(pieces[1..], key)
  }

  lemma ClosersOfHole(name: string, rest: string)
    requires IsKey(name)
    ensures Occurs("{" + name + "}" + rest, '}') == 1 + Occurs(rest, '}')
  {
    OccursPlus("{" + name + "}", rest, '}');
    OccursPlus("{" + name, "}", '}');
    OccursNot("{" + name, '}');
  }

  /** A placeholder that ends with the braced key loses its end to the replacement. */
  lemma NestedHit(name: string, key: string, rest: string, text: string)
    requires IsKey(name) && IsKey(key) && Nested(name, key) && '}' !in text
    ensures Occurs(Replace("{" + name + "}" + rest, "{" + key + "}", text), '}')
              == Occurs(Replace(rest, "{" + key + "}", text), '}')
  {
    var pattern := "{" + key + "}";
    var n := |name| - |key|;
    var head := ("{" + name)[..n];
    assert "{" + name + "}" + rest == head + (pattern + rest);
    forall i | 0 <= i < |head| ensures !StartsWith(head[i..] + (pattern + rest), pattern) {
      assert head[i..] + (pattern + rest) == ("{" + name + "}")[i..] + rest;
      if StartsWith(head[i..] + (pattern + rest), pattern) { StartsInside(name, key, rest, i); }
    }
    ReplaceSkips(head, pattern + rest, pattern, text);
    P.ReplaceHit(rest, pattern, text);
    var tail := Replace(rest, pattern, text);
    OccursPlus(head, text + tail, '}');
    OccursPlus(text, tail, '}');
    OccursNot(head, '}');
    OccursNot(text, '}');
  }

  lemma {:induction false} ClosersLeft(pieces: seq<Piece>, key: string, text: string)
    requires IsReading(pieces) && IsKey(key) && '}' !in text
    ensures Occurs(Replace(Flatten(pieces), "{" + key + "}", text), '}') + Hits(pieces, key)
              == Occurs(Flatten(pieces), '}')
  {
    hide Replace, Nested;
    var pattern := "{" + key + "}";
    if pieces == [] {
      ShortStays("", pattern, text);
    } else {
      var rest := Flatten(pieces[1..]);
      ClosersLeft(pieces[1..], key, text);
      match pieces[0] {
        case Lit(t) =>
          LiteralSkips(t, rest, key, text);
          OccursPlus(t, rest, '}');
          OccursPlus(t, Replace(rest, pattern, text), '}');
        case Hole(n) =>
          ClosersOfHole(n, rest);
          if n == key {
            P.ReplaceHit(rest, pattern, text);
            OccursPlus(text, Replace(rest, pattern, text), '}');
            OccursNot(text, '}');
          } else if Nested(n, key) {
            NestedHit(n, key, rest, text);
          } else {
            HoleSkips(n, key, rest, text);
            ClosersOfHole(n, Replace(rest, pattern, text));
          }
      }
    }
  }

  lemma {:induction false} ClosersFilled(pieces: seq<Piece>, key: string, text: string)
    requires IsReading(pieces) && '}' !in text
    ensures Occurs(Flatten(FillOne(pieces, key, text)), '}') + Count(pieces, key) == Occurs(Flatten(pieces), '}')
  {
    if pieces != [] {
      ClosersFilled(pieces[1..], key, text);
      FillOneCons(pieces, key, text);
      var rest, filled := Flatten(pieces[1..]), Flatten(FillOne(pieces[1..], key, text));
      OccursPlus(Show(pieces[0]), rest, '}');
      OccursPlus(Show(FillOne(pieces, key, text)[0]), filled, '}');
      OccursNot(text, '}');
      if pieces[0].Hole? { ClosersOfHole(pieces[0].name, ""); assert Show(pieces[0]) + "" == Show(pieces[0]); }
    }
  }

  lemma {:induction false} NestedAreHit(pieces: seq<Piece>, key: string, i: nat)
    ensures Hits(pieces, key) >= Count(pieces, key)
    ensures i < |pieces| && pieces[i].Hole? && Nested(pieces[i].name, key) ==> Hits(pieces, key) > Count(pieces, key)
  {
    if pieces != [] {
      NestedAreHit(pieces[1..], key, if i > 0 then i - 1 else 0);
      if i > 0 && i < |pieces| { assert pieces[1..][i - 1] == pieces[i]; }
    }
  }

  /** The exact condition, for any text without closing brace: the replacement fills exactly the placeholders of
      the key if and only if no placeholder ends with the placeholder of the key. */
  lemma ReplaceFillsExactly(pieces: seq<Piece>, key: string, text: string)
    requires IsReading(pieces) && IsKey(key) && '}' !in text
    ensures Replace(Flatten(pieces), "{" + key + "}", text) == Flatten(FillOne(pieces, key, text)) <==>
              Apart(pieces, key)
  {
    hide Replace, Nested;
    if Apart(pieces, key) {
      ReplaceFills(pieces, key, text);
    } else {
      var i :| 0 <= i < |pieces| && pieces[i].Hole? && Nested(pieces[i].name, key);
      NestedAreHit(pieces, key, i);
      ClosersLeft(pieces, key, text);
      ClosersFilled(pieces, key, text);
    }
  }

  lemma StartsAlike(s: string, p: string)
    requires StartsWith(s, p) && |p| >= 2
    ensures |s| >= 2 && s[0] == p[0] && s[1] == p[1]
  {
    assert s[..|p|][1] == s[1];
  }

  /** Filling b first in {a{b}{b} breaks the other placeholder. */
  lemma InnerFirst()
    ensures Replace(Replace("{a{b}{b}", "{b}", "x"), "{a{b}", "y") == "{axx"
  {
    hide Replace, StartsWith;
    assert "{a{b}{b}" == "{a" + ("{b}" + "{b}") && "{b}" + "" == "{b}";
    forall i | 0 <= i < 2 ensures !StartsWith("{a"[i..] + ("{b}" + "{b}"), "{b}") {
      var u := "{a"[i..] + ("{b}" + "{b}");
      assert i == 0 ==> u[1] == 'a';
      assert i == 1 ==> u[0] == 'a';
      if StartsWith(u, "{b}") { StartsAlike(u, "{b}"); }
    }
    ReplaceSkips("{a", "{b}" + "{b}", "{b}", "x");
    P.ReplaceHit("{b}", "{b}", "x");
    P.ReplaceHit("", "{b}", "x");
    ShortStays("", "{b}", "x");
    assert "{a" + ("x" + ("x" + "")) == "{axx";
    ShortStays("{axx", "{a{b}", "y");
  }

  /** Filling it last does not. */
  lemma InnerLast()
    ensures Replace(Replace("{a{b}{b}", "{a{b}", "y"), "{b}", "x") == "yx"
  {
    hide Replace;
    assert "{a{b}{b}" == "{a{b}" + "{b}" && "y" + "{b}" == ['y'] + "{b}" && "{b}" + "" == "{b}";
    P.ReplaceHit("{b}", "{a{b}", "y");
    ShortStays("{b}", "{a{b}", "y");
    P.ReplaceSkip('y', "{b}", "{b}", "x");
    P.ReplaceHit("", "{b}", "x");
    ShortStays("", "{b}", "x");
    assert ['y'] + ("x" + "") == "yx";
  }

  lemma ScanNothing()
    ensures FindAll("") == []
  {
  }

  lemma PlainQuote(c: char)
    requires 'a' <= c <= 'z'
    ensures Quote([c]) == [c]
  {
    assert Utf8Char(c) == [c as int] && Utf8([c]) == [c as int] by { assert [c][1..] == ""; assert Utf8("") == []; }
    assert QuoteOctets([c as int]) == [c] by { assert [c as int][1..] == []; }
  }

  lemma SequentialTwo(path: string, a: Param, b: Param)
    requires !IsDots(Quote(a.text)) && !IsDots(Quote(b.text))
    ensures Sequential(path, [a, b]) ==
      Path(Replace(Replace(path, "{" + a.key + "}", Quote(a.text)), "{" + b.key + "}", Quote(b.text)))
  {
    hide Replace, Quote;
    assert [a, b][1..] == [b] && [b][1..] == [];
    var once := Replace(path, "{" + a.key + "}", Quote(a.text));
    assert Sequential(once, [b]) == Sequential(Replace(once, "{" + b.key + "}", Quote(b.text)), []);
  }

  /** So the order of the parameters can matter, when the placeholder of one stands at the end of another. */
  lemma NestedNamesClash()
    ensures FindAll("{a{b}{b}") == ["a{b", "b"]
    ensures Sequential("{a{b}{b}", [Param("b", "x"), Param("a{b", "y")]) == Path("{axx")
    ensures Sequential("{a{b}{b}", [Param("a{b", "y"), Param("b", "x")]) == Path("yx")
  {
    hide Replace, Quote, FindAll;
    ScanFinds("a{b", "{b}");
    ScanFinds("b", "");
    ScanNothing();
    assert "{a{b}{b}" == "{" + "a{b" + "}" + "{b}" && "{b}" == "{" + "b" + "}" + "";
    PlainQuote('x');
    PlainQuote('y');
    InnerFirst();
    InnerLast();
    assert "{" + "b" + "}" == "{b}" && "{" + "a{b" + "}" == "{a{b}";
    SequentialTwo("{a{b}{b}", Param("b", "x"), Param("a{b", "y"));
    SequentialTwo("{a{b}{b}", Param("a{b", "y"), Param("b", "x"));
  }

  // Filling all placeholders

  /** All placeholders filled at once from a table of texts. */
  function FillAll(pieces: seq<Piece>, texts: map<string, string>): seq<Piece> {
    seq(|pieces|, i requires 0 <= i < |pieces| =>
      if pieces[i].Hole? && pieces[i].name in texts then Lit(Quote(texts[pieces[i].name])) else pieces[i])
  }

  function Table(params: seq<Param>): map<string, string> {
    if params == [] then map[] else Table(params[1..])[params[0].key := params[0].text]
  }

  ghost predicate DistinctKeys(params: seq<Param>) {
    forall i, j :: 0 <= i < j < |params| ==> params[i].key != params[j].key
  }

  lemma {:induction false} TableKeys(params: seq<Param>)
    ensures forall k :: k in Table(params) <==> exists i :: 0 <= i < |params| && params[i].key == k
  {
    if params != [] {
      TableKeys(params[1..]);
      forall k | k in Table(params) ensures exists i :: 0 <= i < |params| && params[i].key == k {
        if k == params[0].key {
        } else {
          assert k in Table(params[1..]);
          var i :| 0 <= i < |params[1..]| && params[1..][i].key == k;
          assert params[i + 1].key == k;
        }
      }
      forall i | 0 <= i < |params| ensures params[i].key in Table(params) {
        if i > 0 { assert params[1..][i - 1] == params[i]; }
      }
    }
  }

  lemma QuoteIsBraceFree(s: string)
    ensures BraceFree(Quote(s)) && '/' !in Quote(s)
  {
    QuoteChars(s);
  }

  /** Some placeholders filled with texts without braces. */
  predicate Fills(pieces: seq<Piece>, out: seq<Piece>) {
    |out| == |pieces| && forall i :: 0 <= i < |pieces| ==>
      out[i] == pieces[i] || (pieces[i].Hole? && out[i].Lit? && BraceFree(out[i].text))
  }

  /** What filling does to the text after a literal: without a '}' nothing, and a '}' at the front stays. */
  lemma {:induction false} FillsBehind(pieces: seq<Piece>, out: seq<Piece>)
    requires Fills(pieces, out)
    ensures '}' !in Flatten(pieces) ==> Flatten(out) == Flatten(pieces)
    ensures Flatten(pieces) != "" && Flatten(pieces)[0] == '}' ==> Flatten(out) != "" && Flatten(out)[0] == '}'
  {
    if pieces != [] {
      assert forall i :: 0 <= i < |pieces[1..]| ==> pieces[1..][i] == pieces[i + 1] && out[1..][i] == out[i + 1];
      FillsBehind(pieces[1..], out[1..]);
      var rest := Flatten(pieces[1..]);
      match pieces[0]
      case Lit(t) => if t == "" { assert t + rest == rest; }
      case Hole(n) => assert Flatten(pieces)[|n| + 1] == '}';
    }
  }

  lemma {:induction false} UntilPlus(a: string, b: string, c: char)
    ensures Until(a + b, c) == if c in a then Until(a, c) else |a| + Until(b, c)
  {
    if a == "" {
      assert a + b == b;
    } else {
      UntilPlus(a[1..], b, c);
      assert (a + b)[1..] == a[1..] + b;
    }
  }

  lemma {:induction false} UntilBounds(s: string, c: char)
    ensures Until(s, c) < |s| <==> c in s
    ensures Until(s, c) == 0 <==> s == "" || s[0] == c
  {
    if s != "" && s[0] != c { UntilBounds(s[1..], c); }
  }

  lemma HoleAtStays(c: char, v: string, rest: string, rest': string)
    requires HoleAt([c] + (v + rest)) == 0 && ('}' !in rest ==> rest' == rest)
    requires rest != "" && rest[0] == '}' ==> rest' != "" && rest'[0] == '}'
    ensures HoleAt([c] + (v + rest')) == 0
  {
    hide Until;
    var s, s' := [c] + (v + rest), [c] + (v + rest');
    assert s[1..] == v + rest && s'[1..] == v + rest';
    UntilPlus(v, rest, '}');
    UntilPlus(v, rest', '}');
    UntilBounds(v, '}');
    UntilBounds(rest, '}');
    UntilBounds(rest', '}');
  }

  lemma NoHoleKept(t: string, rest: string, rest': string)
    requires NoHole(t, rest) && ('}' !in rest ==> rest' == rest)
    requires rest != "" && rest[0] == '}' ==> rest' != "" && rest'[0] == '}'
    ensures NoHole(t, rest')
  {
    hide HoleAt;
    forall i | 0 <= i < |t| ensures HoleAt(t[i..] + rest') == 0 {
      assert t[i..] + rest == [t[i]] + (t[i + 1..] + rest) && t[i..] + rest' == [t[i]] + (t[i + 1..] + rest');
      assert HoleAt(t[i..] + rest) == 0;
      HoleAtStays(t[i], t[i + 1..], rest, rest');
    }
  }

  lemma BraceFreeNoHole(t: string, rest: string)
    requires BraceFree(t)
    ensures NoHole(t, rest)
  {
  }

  /** A filled template still reads as its pieces. */
  lemma {:induction false} FilledIsReading(pieces: seq<Piece>, out: seq<Piece>)
    requires IsReading(pieces) && Fills(pieces, out)
    ensures IsReading(out)
  {
    hide HoleAt;
    if pieces != [] {
      assert forall i :: 0 <= i < |pieces[1..]| ==> pieces[1..][i] == pieces[i + 1] && out[1..][i] == out[i + 1];
      FilledIsReading(pieces[1..], out[1..]);
      FillsBehind(pieces[1..], out[1..]);
      if pieces[0].Lit? {
        NoHoleKept(pieces[0].text, Flatten(pieces[1..]), Flatten(out[1..]));
      } else if out[0].Lit? {
        BraceFreeNoHole(out[0].text, Flatten(out[1..]));
      }
    }
  }

  lemma FillStep(pieces: seq<Piece>, params: seq<Param>)
    requires params != [] && params[0].key !in Table(params[1..])
    ensures FillAll(FillOne(pieces, params[0].key, Quote(params[0].text)), Table(params[1..]))
              == FillAll(pieces, Table(params))
  {
  }

  lemma FillAllFills(pieces: seq<Piece>, texts: map<string, string>)
    ensures Fills(pieces, FillAll(pieces, texts))
  {
    forall i | 0 <= i < |pieces| && pieces[i].Hole? && pieces[i].name in texts
      ensures BraceFree(Quote(texts[pieces[i].name]))
    {
      QuoteIsBraceFree(texts[pieces[i].name]);
    }
  }

  /** Replacing the parameters one after the other, in any order, gives the same path as filling all
      placeholders at once, when no placeholder ends with that of a parameter; the substitution fails exactly
      when some parameter is a dot segment. */
  lemma {:induction false} SequentialIsSimultaneous(pieces: seq<Piece>, params: seq<Param>)
    requires IsReading(pieces) && DistinctKeys(params)
    requires forall i :: 0 <= i < |params| ==> IsKey(params[i].key) && Apart(pieces, params[i].key)
    ensures Sequential(Flatten(pieces), params) ==
      if exists i :: 0 <= i < |params| && (params[i].text == "." || params[i].text == "..") then DotSegment
      else Path(Flatten(FillAll(pieces, Table(params))))
    decreases |params|
  {
    hide Replace, Quote, IsReading, Nested;
    if params != [] { DotsExactly(params[0].text); }
    if params == [] {
      assert FillAll(pieces, map[]) == pieces;
    } else if params[0].text != "." && params[0].text != ".." {
      var tail, text := params[1..], Quote(params[0].text);
      var filled := FillOne(pieces, params[0].key, text);
      QuoteIsBraceFree(params[0].text);
      ReplaceFills(pieces, params[0].key, text);
      FilledIsReading(pieces, filled);
      assert forall i :: 0 <= i < |tail| ==> tail[i] == params[i + 1];
      SequentialIsSimultaneous(filled, tail);
      TableKeys(tail);
      FillStep(pieces, params);
      forall i | 0 < i < |params| ensures params[i] == tail[i - 1] { }
    }
  }

  // When the order of two parameters matters

  /** How often the replacement strikes. */
  function Strikes(s: string, pattern: string): nat
    requires pattern != []
    decreases |s|
  {
    if |s| < |pattern| then 0
    else if s[..|pattern|] == pattern then 1 + Strikes(s[|pattern|..], pattern)
    else Strikes(s[1..], pattern)
  }

  lemma OneMore(k: nat, n: nat)
    ensures (1 + k) * n == n + k * n
  {
  }

  /** Every strike takes out the characters of the pattern; the replacement has none of this character. */
  lemma {:induction false} StrikesCount(s: string, pattern: string, text: string, c: char)
    requires pattern != [] && c !in text
    ensures Occurs(Replace(s, pattern, text), c) + Strikes(s, pattern) * Occurs(pattern, c) == Occurs(s, c)
    decreases |s|
  {
    if |s| >= |pattern| {
      if s[..|pattern|] == pattern {
        var rest := s[|pattern|..];
        StrikesCount(rest, pattern, text, c);
        assert s == pattern + rest;
        OccursPlus(pattern, rest, c);
        OccursPlus(text, Replace(rest, pattern, text), c);
        OccursNot(text, c);
        OneMore(Strikes(rest, pattern), Occurs(pattern, c));
      } else {
        StrikesCount(s[1..], pattern, text, c);
        OccursPlus([s[0]], Replace(s[1..], pattern, text), c);
        OccursPlus([s[0]], s[1..], c);
        assert s == [s[0]] + s[1..];
      }
    }
  }

  lemma OpenersOfHole(name: string)
    ensures Occurs("{" + name + "}", '{') == 1 + Occurs(name, '{')
  {
    OccursPlus("{" + name, "}", '{');
    OccursPlus("{", name, '{');
    OccursNot("}", '{');
    assert Occurs("{", '{') == 1 by { assert "{"[1..] == ""; }
  }

  lemma {:induction false} OpenersFilled(pieces: seq<Piece>, key: string, text: string)
    requires '{' !in text
    ensures Occurs(Flatten(FillOne(pieces, key, text)), '{') + Count(pieces, key) * (1 + Occurs(key, '{'))
         == Occurs(Flatten(pieces), '{')
  {
    if pieces != [] {
      OpenersFilled(pieces[1..], key, text);
      FillOneCons(pieces, key, text);
      OccursPlus(Show(pieces[0]), Flatten(pieces[1..]), '{');
      OccursPlus(Show(FillOne(pieces, key, text)[0]), Flatten(FillOne(pieces[1..], key, text)), '{');
      OccursNot(text, '{');
      OpenersOfHole(key);
      OneMore(Count(pieces[1..], key), 1 + Occurs(key, '{'));
    }
  }

  lemma NestedHasMore(name: string, key: string)
    requires Nested(name, key)
    ensures Occurs(name, '{') >= 1 + Occurs(key, '{')
  {
    var n := |name| - |key| - 1;
    assert name == name[..n] + ("{" + key);
    OccursPlus(name[..n], "{" + key, '{');
    OccursPlus("{", key, '{');
    assert Occurs("{", '{') == 1 by { assert "{"[1..] == ""; }
  }

  lemma {:induction false} CountFilled(pieces: seq<Piece>, key: string, text: string, other: string)
    requires other != key
    ensures Count(FillOne(pieces, key, text), other) == Count(pieces, other)
  {
    if pieces != [] {
      CountFilled(pieces[1..], key, text, other);
      FillOneCons(pieces, key, text);
    }
  }

  lemma SameWeights(k1: int, k2: int, c1: int, c2: int, u: int, v: int)
    requires k1 + k2 == c1 + c2 && k1 * u + k2 * v == c1 * u + c2 * v && k1 > c1
    ensures u == v
  {
    var d := k1 - c1;
    assert k2 == c2 - d;
    assert (c1 + d) * u == c1 * u + d * u && (c2 - d) * v == c2 * v - d * v;
    assert d * u == d * v && d * (u - v) == d * u - d * v;
  }

  /** What two replacements leave of the braces of a template. */
  lemma BracesLeft(pieces: seq<Piece>, first: string, x: string, second: string, y: string)
    returns (k1: nat, k2: nat)
    requires IsReading(pieces) && IsKey(first) && IsKey(second) && BraceFree(x) && BraceFree(y)
    ensures k1 == Hits(pieces, first)
    ensures var left := Replace(Replace(Flatten(pieces), "{" + first + "}", x), "{" + second + "}", y);
      && Occurs(left, '}') + k1 + k2 == Occurs(Flatten(pieces), '}')
      && Occurs(left, '{') + k1 * (1 + Occurs(first, '{')) + k2 * (1 + Occurs(second, '{'))
        == Occurs(Flatten(pieces), '{')
  {
    hide Replace, Strikes, Hits;
    var s, p1, p2 := Flatten(pieces), "{" + first + "}", "{" + second + "}";
    var mid := Replace(s, p1, x);
    k1, k2 := Strikes(s, p1), Strikes(mid, p2);
    ClosersOfHole(first, "");
    ClosersOfHole(second, "");
    assert p1 + "" == p1 && p2 + "" == p2;
    OpenersOfHole(first);
    OpenersOfHole(second);
    StrikesCount(s, p1, x, '}');
    StrikesCount(s, p1, x, '{');
    StrikesCount(mid, p2, y, '}');
    StrikesCount(mid, p2, y, '{');
    ClosersLeft(pieces, first, x);
  }

  /** What filling both leaves of them. */
  lemma BracesFilled(pieces: seq<Piece>, first: string, x: string, second: string, y: string)
    requires IsReading(pieces) && first != second && BraceFree(x) && BraceFree(y)
    ensures
      var filled := Flatten(FillOne(FillOne(pieces, first, x), second, y));
      var c1, c2 := Count(pieces, first), Count(pieces, second);
      && Occurs(filled, '}') + c1 + c2 == Occurs(Flatten(pieces), '}')
      && Occurs(filled, '{') + c1 * (1 + Occurs(first, '{')) + c2 * (1 + Occurs(second, '{'))
        == Occurs(Flatten(pieces), '{')
  {
    hide Occurs, Flatten, Count, IsReading;
    var mid := FillOne(pieces, first, x);
    FilledIsReading(pieces, mid);
    CountFilled(pieces, first, x, second);
    ClosersFilled(pieces, first, x);
    ClosersFilled(mid, second, y);
    OpenersFilled(pieces, first, x);
    OpenersFilled(mid, second, y);
  }

  lemma {:induction false} NameOfPiece(pieces: seq<Piece>, i: nat)
    requires i < |pieces| && pieces[i].Hole?
    ensures pieces[i].name in Names(pieces)
  {
    if i > 0 { NameOfPiece(pieces[1..], i - 1); }
  }

  lemma {:induction false} NamesAreKeys(pieces: seq<Piece>, name: string)
    requires IsReading(pieces) && name in Names(pieces)
    ensures IsKey(name)
  {
    if pieces[0] != Hole(name) { NamesAreKeys(pieces[1..], name); }
  }

  /** For all texts: when a placeholder ends with that of an inner parameter, replacing the inner one first and
      then the outer one never gives the filled template. */
  lemma InnerFirstFails(pieces: seq<Piece>, inner: string, x: string, outer: string, y: string, i: nat)
    requires IsReading(pieces) && IsKey(inner) && BraceFree(x) && BraceFree(y)
    requires i < |pieces| && pieces[i] == Hole(outer) && Nested(outer, inner)
    ensures Replace(Replace(Flatten(pieces), "{" + inner + "}", x), "{" + outer + "}", y)
         != Flatten(FillOne(FillOne(pieces, inner, x), outer, y))
  {
    hide Replace, Flatten, FillOne, Occurs, Hits, Count, IsReading;
    NameOfPiece(pieces, i);
    NamesAreKeys(pieces, outer);
    var k1, k2 := BracesLeft(pieces, inner, x, outer, y);
    BracesFilled(pieces, inner, x, outer, y);
    NestedAreHit(pieces, inner, i);
    NestedHasMore(outer, inner);
    var left := Replace(Replace(Flatten(pieces), "{" + inner + "}", x), "{" + outer + "}", y);
    if left == Flatten(FillOne(FillOne(pieces, inner, x), outer, y)) {
      SameWeights(k1, k2, Count(pieces, inner), Count(pieces, outer), 1 + Occurs(inner, '{'), 1 + Occurs(outer, '{'));
    }
  }

  // Which orders fill the template

  /** The parameters of a table in some order. */
  ghost predicate Orders(params: seq<Param>, texts: map<string, string>) {
    DistinctKeys(params) && Table(params) == texts
  }

  /** The path with all placeholders filled. */
  function FilledBy(pieces: seq<Piece>, texts: map<string, string>): Outcome { Path(Flatten(FillAll(pieces, texts))) }

  /** The order fills the placeholders of the template. */
  ghost predicate FillsIn(pieces: seq<Piece>, params: seq<Param>, texts: map<string, string>) {
    Sequential(Flatten(pieces), params) == FilledBy(pieces, texts)
  }

  predicate NoDots(texts: map<string, string>) { forall k :: k in texts ==> texts[k] != "." && texts[k] != ".." }

  /** All placeholders of the template have a text. */
  ghost predicate Covers(pieces: seq<Piece>, texts: map<string, string>) {
    && IsReading(pieces) && NoDots(texts)
    && (forall n :: n in Names(pieces) ==> n in texts) && (forall k :: k in texts ==> IsKey(k))
  }

  lemma {:induction false} NamesFilled(pieces: seq<Piece>, key: string, text: string)
    ensures forall n :: n in Names(FillOne(pieces, key, text)) <==> n in Names(pieces) && n != key
  {
    if pieces != [] {
      NamesFilled(pieces[1..], key, text);
      FillOneCons(pieces, key, text);
    }
  }

  lemma FillsOne(pieces: seq<Piece>, key: string, text: string)
    requires BraceFree(text)
    ensures Fills(pieces, FillOne(pieces, key, text))
  {
  }

  lemma CoversFilled(pieces: seq<Piece>, texts: map<string, string>, k: string)
    requires Covers(pieces, texts) && k in texts
    ensures Covers(FillOne(pieces, k, Quote(texts[k])), texts - {k})
  {
    hide IsReading, Quote, IsDots, IsKey, FillOne, Fills;
    NamesFilled(pieces, k, Quote(texts[k]));
    QuoteIsBraceFree(texts[k]);
    FillsOne(pieces, k, Quote(texts[k]));
    FilledIsReading(pieces, FillOne(pieces, k, Quote(texts[k])));
  }

  lemma SequentialCons(path: string, param: Param, rest: seq<Param>)
    requires param.text != "." && param.text != ".."
    ensures Sequential(path, [param] + rest)
              == Sequential(Replace(path, "{" + param.key + "}", Quote(param.text)), rest)
  {
    hide Replace, Quote;
    DotsExactly(param.text);
    assert ([param] + rest)[1..] == rest;
  }

  lemma FirstOrders(texts: map<string, string>, k: string, rest: seq<Param>)
    requires k in texts && Orders(rest, texts - {k})
    ensures Orders([Param(k, texts[k])] + rest, texts) && Table(([Param(k, texts[k])] + rest)[1..]) == texts - {k}
  {
    var params := [Param(k, texts[k])] + rest;
    assert params[1..] == rest;
    TableKeys(rest);
    assert forall i :: 0 <= i < |rest| ==> rest[i].key in texts - {k};
    assert Table(params) == (texts - {k})[k := texts[k]];
  }

  lemma SameTable(params: seq<Param>, texts: map<string, string>)
    requires Orders(params, texts)
    ensures Table(params) == texts
  {
  }

  /** A parameter whose placeholder stands at the end of no other can be filled first. */
  lemma FirstFills(pieces: seq<Piece>, texts: map<string, string>, k: string, rest: seq<Param>)
    requires Covers(pieces, texts) && k in texts && Apart(pieces, k) && Orders(rest, texts - {k})
    ensures Orders([Param(k, texts[k])] + rest, texts)
    ensures FillsIn(pieces, [Param(k, texts[k])] + rest, texts)
              == FillsIn(FillOne(pieces, k, Quote(texts[k])), rest, texts - {k})
  {
    hide Replace, Quote, IsReading, IsDots, IsKey, Apart, Flatten, FillOne, FillAll, Sequential, Orders;
    var params := [Param(k, texts[k])] + rest;
    QuoteIsBraceFree(texts[k]);
    SequentialCons(Flatten(pieces), params[0], rest);
    ReplaceFills(pieces, k, Quote(texts[k]));
    FirstOrders(texts, k, rest);
    assert Table(params) == texts by { SameTable(params, texts); }
    FillStep(pieces, params);
  }

  /** The number of opening braces of a name: a name nested in another has fewer. */
  function Weight(name: string): nat { Occurs(name, '{') }

  lemma {:induction false} Heaviest(keys: set<string>) returns (k: string)
    requires keys != {}
    ensures k in keys && forall j :: j in keys ==> Weight(j) <= Weight(k)
    decreases keys
  {
    hide Weight;
    k :| k in keys;
    if keys != {k} {
      var other := Heaviest(keys - {k});
      assert forall j :: j in keys ==> j == k || j in keys - {k};
      if Weight(k) < Weight(other) { k := other; }
    }
  }

  lemma ApartFromLighter(pieces: seq<Piece>, key: string)
    requires forall n :: n in Names(pieces) && Weight(n) > Weight(key) ==> !Nested(n, key)
    ensures Apart(pieces, key)
  {
    hide Nested, Occurs;
    forall i | 0 <= i < |pieces| && pieces[i].Hole? ensures !Nested(pieces[i].name, key) {
      NameOfPiece(pieces, i);
      if Nested(pieces[i].name, key) { NestedHasMore(pieces[i].name, key); }
    }
  }

  lemma NothingToFill(pieces: seq<Piece>)
    ensures Orders([], map[]) && FillsIn(pieces, [], map[])
  {
    assert FillAll(pieces, map[]) == pieces;
  }

  lemma CoversNames(pieces: seq<Piece>, texts: map<string, string>)
    requires Covers(pieces, texts)
    ensures forall n :: n in Names(pieces) ==> n in texts
  {
  }

  /** Whatever the names, some order of the parameters fills the template: the one by falling weight. */
  lemma {:induction false} SomeOrderFills(pieces: seq<Piece>, texts: map<string, string>) returns (params: seq<Param>)
    requires Covers(pieces, texts)
    ensures Orders(params, texts) && FillsIn(pieces, params, texts)
    decreases |texts|
  {
    hide Covers, Quote, Nested, FillsIn, Apart, Weight, FillOne;
    if texts == map[] {
      params := [];
      NothingToFill(pieces);
    } else {
      var k := Heaviest(texts.Keys);
      CoversNames(pieces, texts);
      ApartFromLighter(pieces, k);
      CoversFilled(pieces, texts, k);
      var rest := SomeOrderFills(FillOne(pieces, k, Quote(texts[k])), texts - {k});
      FirstFills(pieces, texts, k, rest);
      params := [Param(k, texts[k])] + rest;
    }
  }

  /** Of two names at the end of a third one, the shorter stands at the end of the longer. */
  lemma BothNested(name: string, a: string, b: string)
    requires Nested(name, a) && Nested(name, b) && |a| < |b|
    ensures Nested(b, a)
  {
    assert name[|name| - |b| - 1..][1..] == b && name[|name| - |a| - 1..] == "{" + a;
    assert b == name[|name| - |b|..];
    assert b[|b| - |a| - 1..] == name[|name| - |a| - 1..];
  }

  lemma BothNestedSame(name: string, a: string, b: string)
    requires Nested(name, a) && Nested(name, b) && |a| == |b|
    ensures a == b
  {
    assert ("{" + a)[1..] == a && ("{" + b)[1..] == b;
  }

  /** Nothing is nested in inner, and nothing but inner in outer. */
  ghost predicate Innermost(keys: set<string>, inner: string, outer: string) {
    && inner in keys && outer in keys && Nested(outer, inner)
    && forall k :: k in keys ==> !Nested(inner, k) && (Nested(outer, k) ==> k == inner)
  }

  lemma {:induction false} InnermostPair(keys: set<string>, inner: string, outer: string)
      returns (first: string, second: string)
    requires inner in keys && outer in keys && Nested(outer, inner)
    ensures Innermost(keys, first, second)
    decreases Weight(outer)
  {
    hide Nested, Occurs;
    NestedHasMore(outer, inner);
    if k :| k in keys && Nested(inner, k) {
      first, second := InnermostPair(keys, k, inner);
    } else if k :| k in keys && k != inner && Nested(outer, k) {
      NestedHasMore(outer, k);
      if |k| < |inner| { BothNested(outer, k, inner); }
      if |k| == |inner| { BothNestedSame(outer, k, inner); }
      BothNested(outer, inner, k);
      first, second := InnermostPair(keys, inner, k);
    } else {
      first, second := inner, outer;
    }
  }

  lemma TwoTexts(texts: map<string, string>, a: string, b: string)
    requires texts.Keys == {a, b} && a != b
    ensures Orders([Param(a, texts[a]), Param(b, texts[b])], texts)
  {
    assert texts - {a} - {b} == map[];
    FirstOrders(texts - {a}, b, []);
    FirstOrders(texts, a, [Param(b, texts[b])]);
    assert [Param(a, texts[a])] + [Param(b, texts[b])] == [Param(a, texts[a]), Param(b, texts[b])];
    assert [Param(b, texts[b])] + [] == [Param(b, texts[b])];
  }

  lemma FillTwo(pieces: seq<Piece>, a: Param, b: Param)
    requires a.key != b.key
    ensures FillAll(pieces, Table([a, b])) == FillOne(FillOne(pieces, a.key, Quote(a.text)), b.key, Quote(b.text))
  {
    hide Quote;
    assert [a, b][1..] == [b] && [b][1..] == [];
    var mid := FillOne(pieces, a.key, Quote(a.text));
    FillStep(pieces, [a, b]);
    FillStep(mid, [b]);
    assert FillAll(FillOne(mid, b.key, Quote(b.text)), map[]) == FillOne(mid, b.key, Quote(b.text));
  }

  lemma {:induction false} PieceOfName(pieces: seq<Piece>, name: string) returns (i: nat)
    requires name in Names(pieces)
    ensures i < |pieces| && pieces[i] == Hole(name)
  {
    if pieces[0] == Hole(name) {
      i := 0;
    } else {
      i := PieceOfName(pieces[1..], name);
      i := i + 1;
    }
  }

  /** Filling the inner of two parameters first fails, whatever the values. */
  lemma TwoFail(pieces: seq<Piece>, inner: Param, outer: Param)
    requires IsReading(pieces) && IsKey(inner.key) && outer.key in Names(pieces) && Nested(outer.key, inner.key)
    requires inner.text != "." && inner.text != ".." && outer.text != "." && outer.text != ".."
    ensures !FillsIn(pieces, [inner, outer], Table([inner, outer]))
  {
    hide Replace, Quote, Flatten, FillOne, FillAll, IsReading, IsKey, IsDots, Table, Sequential;
    var i := PieceOfName(pieces, outer.key);
    QuoteIsBraceFree(inner.text);
    QuoteIsBraceFree(outer.text);
    InnerFirstFails(pieces, inner.key, Quote(inner.text), outer.key, Quote(outer.text), i);
    DotsExactly(inner.text);
    DotsExactly(outer.text);
    SequentialTwo(Flatten(pieces), inner, outer);
    FillTwo(pieces, inner, outer);
  }

  /** All others first, then the inner and the outer one: that order fails. */
  lemma {:induction false} SomeOrderFails(pieces: seq<Piece>, texts: map<string, string>, inner: string, outer: string)
      returns (params: seq<Param>)
    requires Covers(pieces, texts) && Innermost(texts.Keys, inner, outer) && outer in Names(pieces)
    ensures Orders(params, texts) && !FillsIn(pieces, params, texts)
    decreases |texts|
  {
    hide Quote, FillsIn, Apart, Weight, FillOne, IsReading, Nested, IsDots, IsKey, Orders, Table;
    assert inner != outer by { NestedHasMore(outer, inner); }
    if texts.Keys == {inner, outer} {
      params := [Param(inner, texts[inner]), Param(outer, texts[outer])];
      TwoTexts(texts, inner, outer);
      SameTable(params, texts);
      TwoFail(pieces, params[0], params[1]);
    } else {
      var k := Heaviest(texts.Keys - {inner, outer});
      ApartFromLighter(pieces, k);
      CoversFilled(pieces, texts, k);
      NamesFilled(pieces, k, Quote(texts[k]));
      var rest := SomeOrderFails(FillOne(pieces, k, Quote(texts[k])), texts - {k}, inner, outer);
      FirstFills(pieces, texts, k, rest);
      params := [Param(k, texts[k])] + rest;
    }
  }

  lemma ApartFromNames(pieces: seq<Piece>, key: string)
    requires forall n :: n in Names(pieces) ==> !Nested(n, key)
    ensures Apart(pieces, key)
  {
    forall i | 0 <= i < |pieces| && pieces[i].Hole? ensures !Nested(pieces[i].name, key) { NameOfPiece(pieces, i); }
  }

  /** No placeholder stands at the end of another. */
  predicate NoneNested(keys: set<string>) { forall a, b :: a in keys && b in keys ==> !Nested(a, b) }

  lemma {:induction false} TableValues(params: seq<Param>)
    requires DistinctKeys(params)
    ensures forall i :: 0 <= i < |params| ==>
      params[i].key in Table(params) && Table(params)[params[i].key] == params[i].text
  {
    if params != [] {
      TableValues(params[1..]);
      forall i | 0 <= i < |params|
        ensures params[i].key in Table(params) && Table(params)[params[i].key] == params[i].text
      {
        if i > 0 { assert params[1..][i - 1] == params[i]; }
      }
    }
  }

  lemma EveryOrderFills(pieces: seq<Piece>, texts: map<string, string>, params: seq<Param>)
    requires Covers(pieces, texts) && NoneNested(texts.Keys) && Orders(params, texts)
    ensures FillsIn(pieces, params, texts)
  {
    hide Quote, IsReading, Nested, IsDots, IsKey, Sequential, FillAll, Flatten, Apart;
    TableKeys(params);
    TableValues(params);
    forall i | 0 <= i < |params| ensures IsKey(params[i].key) && Apart(pieces, params[i].key) {
      ApartFromNames(pieces, params[i].key);
    }
    SequentialIsSimultaneous(pieces, params);
  }

  lemma InnermostMeans(keys: set<string>, inner: string, outer: string)
    requires Innermost(keys, inner, outer)
    ensures outer in keys
  {
  }

  /** The exact condition, for every template and any values without dot segments: all orders of the parameters
      fill the template if and only if no placeholder stands at the end of another. */
  lemma AnyOrderExactly(pieces: seq<Piece>, texts: map<string, string>)
    requires Covers(pieces, texts) && forall k :: k in texts ==> k in Names(pieces)
    ensures (forall params :: Orders(params, texts) ==> FillsIn(pieces, params, texts)) <==> NoneNested(texts.Keys)
  {
    hide Covers, Nested, Orders, FillsIn;
    if NoneNested(texts.Keys) {
      forall params | Orders(params, texts) ensures FillsIn(pieces, params, texts) {
        EveryOrderFills(pieces, texts, params);
      }
    } else {
      var outer, inner :| outer in texts.Keys && inner in texts.Keys && Nested(outer, inner);
      var first, second := InnermostPair(texts.Keys, inner, outer);
      InnermostMeans(texts.Keys, first, second);
      var params := SomeOrderFails(pieces, texts, first, second);
    }
  }

  /** So the order matters exactly then: all orders give the same path if and only if no placeholder stands at the
      end of another. */
  lemma OrderMattersExactly(pieces: seq<Piece>, texts: map<string, string>)
    requires Covers(pieces, texts) && forall k :: k in texts ==> k in Names(pieces)
    ensures (forall ps, qs :: Orders(ps, texts) && Orders(qs, texts) ==>
               Sequential(Flatten(pieces), ps) == Sequential(Flatten(pieces), qs)) <==> NoneNested(texts.Keys)
  {
    hide Covers, Nested, Orders, Sequential, Flatten, FillAll;
    AnyOrderExactly(pieces, texts);
    var right := SomeOrderFills(pieces, texts);
    if forall params :: Orders(params, texts) ==> FillsIn(pieces, params, texts) {
      forall ps, qs | Orders(ps, texts) && Orders(qs, texts)
        ensures Sequential(Flatten(pieces), ps) == Sequential(Flatten(pieces), qs)
      {
        assert FillsIn(pieces, ps, texts) && FillsIn(pieces, qs, texts);
      }
    } else {
      var wrong :| Orders(wrong, texts) && !FillsIn(pieces, wrong, texts);
      assert Sequential(Flatten(pieces), wrong) != Sequential(Flatten(pieces), right);
    }
  }

  // What the substituted path looks like

  /** The '/' of the literal text. */
  function LiteralSlashes(pieces: seq<Piece>): nat {
    if pieces == [] then 0
    else (if pieces[0].Lit? then Occurs(pieces[0].text, '/') else 0) + LiteralSlashes(pieces[1..])
  }

  lemma FillAllCons(pieces: seq<Piece>, texts: map<string, string>)
    requires pieces != []
    ensures FillAll(pieces, texts) != [] && FillAll(pieces, texts)[1..] == FillAll(pieces[1..], texts)
    ensures FillAll(pieces, texts)[0] ==
      if pieces[0].Hole? && pieces[0].name in texts then Lit(Quote(texts[pieces[0].name])) else pieces[0]
  {
  }

  lemma {:induction false} FilledSlashes(pieces: seq<Piece>, texts: map<string, string>)
    requires forall n :: n in Names(pieces) ==> n in texts
    ensures Occurs(Flatten(FillAll(pieces, texts)), '/') == LiteralSlashes(pieces)
    ensures Names(FillAll(pieces, texts)) == []
  {
    hide Quote;
    if pieces != [] {
      FilledSlashes(pieces[1..], texts);
      FillAllCons(pieces, texts);
      var head := Show(FillAll(pieces, texts)[0]);
      if pieces[0].Hole? {
        assert pieces[0].name in Names(pieces);
        QuoteIsBraceFree(texts[pieces[0].name]);
        OccursNot(head, '/');
      }
      OccursPlus(head, Flatten(FillAll(pieces[1..], texts)), '/');
    }
  }

  /** With a text for every placeholder, the path has no placeholder left, exactly the slashes of the literal
      text, and keeps that text piece by piece. */
  lemma FilledPath(pieces: seq<Piece>, texts: map<string, string>)
    requires IsReading(pieces) && forall n :: n in Names(pieces) ==> n in texts
    ensures FindAll(Flatten(FillAll(pieces, texts))) == []
    ensures Occurs(Flatten(FillAll(pieces, texts)), '/') == LiteralSlashes(pieces)
    ensures |FillAll(pieces, texts)| == |pieces|
    ensures forall i :: 0 <= i < |pieces| ==> match pieces[i]
      case Lit(_) => FillAll(pieces, texts)[i] == pieces[i]
      case Hole(n) => n in texts && FillAll(pieces, texts)[i] == Lit(Quote(texts[n]))
  {
    hide Quote, IsReading, FindAll;
    FillAllFills(pieces, texts);
    FilledIsReading(pieces, FillAll(pieces, texts));
    FilledSlashes(pieces, texts);
    ScanYieldsNames(FillAll(pieces, texts));
    forall i | 0 <= i < |pieces| && pieces[i].Hole? ensures pieces[i].name in texts { NameOfPiece(pieces, i); }
  }

  /** The preflight's comparison: the scanned names are the keys of the path parameters. */
  predicate Matches(template: string, keys: set<string>) {
    (set n | n in FindAll(template)) == keys
  }

  /** No scanned name ends with the placeholder of another one. */
  predicate Unnested(template: string) {
    NoneNested(set n | n in FindAll(template))
  }

  lemma NamesAreParams(template: string, pieces: seq<Piece>, keys: set<string>)
    requires IsReading(pieces) && FindAll(template) == Names(pieces) && Matches(template, keys) && Unnested(template)
    ensures forall n :: n in Names(pieces) <==> n in keys
    ensures forall key :: key in keys ==> IsKey(key) && Apart(pieces, key)
  {
    hide FindAll, IsReading, Nested, IsKey;
    forall n ensures n in Names(pieces) <==> n in keys {
      assert n in FindAll(template) <==> n in set x | x in FindAll(template);
    }
    forall key | key in keys ensures IsKey(key) && Apart(pieces, key) {
      NamesAreKeys(pieces, key);
      forall i | 0 <= i < |pieces| && pieces[i].Hole? ensures !Nested(pieces[i].name, key) { NameOfPiece(pieces, i); }
    }
  }

  /** A request whose parameters passed the preflight scan of a template without nested names, in any order: the
      path is the template with every placeholder replaced by its percent-encoded value, which decodes to the
      value; no placeholder is left, and the slashes are those of the literal text. */
  lemma RequestPath(template: string, params: seq<Param>) returns (pieces: seq<Piece>)
    requires DistinctKeys(params) && Matches(template, Table(params).Keys) && Unnested(template)
    ensures IsReading(pieces) && Flatten(pieces) == template
    ensures Sequential(template, params) ==
      if exists i :: 0 <= i < |params| && (params[i].text == "." || params[i].text == "..") then DotSegment
      else Path(Flatten(FillAll(pieces, Table(params))))
    ensures FindAll(Flatten(FillAll(pieces, Table(params)))) == []
    ensures Occurs(Flatten(FillAll(pieces, Table(params))), '/') == LiteralSlashes(pieces)
    ensures forall i :: 0 <= i < |params| ==> Decode(Quote(params[i].text)) == Utf8(params[i].text)
  {
    hide Quote, Replace, Decode, Utf8, Flatten, FillAll, Occurs, Sequential, Table, FindAll, IsReading, Nested, IsDots,
         IsKey;
    pieces := EveryTemplateHasReading(template);
    ScanYieldsNames(pieces);
    TableKeys(params);
    NamesAreParams(template, pieces, Table(params).Keys);
    forall i | 0 <= i < |params| ensures IsKey(params[i].key) && Apart(pieces, params[i].key) {
      assert params[i].key in Table(params).Keys;
    }
    SequentialIsSimultaneous(pieces, params);
    DotSegmentExactly(template, params);
    FilledPath(pieces, Table(params));
    forall i | 0 <= i < |params| ensures Decode(Quote(params[i].text)) == Utf8(params[i].text) {
      QuoteRoundTrip(params[i].text);
    }
  }
}
