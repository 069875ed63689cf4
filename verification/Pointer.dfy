/** JSON pointers: the evaluator of the contract module against sections 3 and 4 of RFC 6901. */
module Pointers {
  import opened Redis
  import opened Json
  import opened Text

  datatype Fault = ContractError | KeyError | IndexError | TypeError

  datatype Result<+T> = Ok(value: T) | Err(fault: Fault)

  // The evaluator

  /** The two whole-string replacements of the evaluator. */
  function Unescape(token: string): string {
    Replace(Replace(token, "~1", "/"), "~0", "~")
  }

  /** One step: only arrays insist on a canonical index; scalars cannot be indexed. */
  function Child(current: Json, token: string): Result<Json> {
    match current
    case JArr(items) =>
      if !IsCanonical(token) then Err(ContractError)
      else if Value(token) < |items| then Ok(items[Value(token)])
      else Err(IndexError)
    case JObj(fields) => if token in fields then Ok(fields[token]) else Err(KeyError)
    case _ => Err(TypeError)
  }

  function Descend(current: Json, tokens: seq<string>): Result<Json>
    decreases |tokens|
  {
    if tokens == [] then Ok(current)
    else
      var next := Child(current, Unescape(tokens[0]));
      if next.Err? then next else Descend(next.value, tokens[1..])
  }

  function Pointer(document: Json, path: string): Result<Json> {
    if path == "" then Ok(document)
    else if path[0] != '/' then Err(ContractError)
    else Descend(document, Split(path[1..], '/'))
  }

  method EvalPointer(document: Json, path: string) returns (r: Result<Json>)
    ensures r == Pointer(document, path)
    ensures path != "" && path[0] != '/' ==> r == Err(ContractError)
  {
    if path == "" { return Ok(document); }
    if path[0] != '/' { return Err(ContractError); }
    var current := document;
    var tokens := Split(path[1..], '/');
    for i := 0 to |tokens|
      invariant Descend(current, tokens[i..]) == Descend(document, tokens)
    {
      assert tokens[i..][0] == tokens[i] && tokens[i..][1..] == tokens[i + 1..];
      var next := Child(current, Unescape(tokens[i]));
      if next.Err? { return next; }
      current := next.value;
    }
    r := Ok(current);
  }

  // The standard

  /** A step down a document: a member of an object or an element of an array. */
  datatype Ref = Key(k: string) | Index(n: nat)

  /** The node a path leads to, if it exists. */
  function Walk(document: Json, path: seq<Ref>): Option<Json>
    decreases |path|
  {
    if path == [] then Some(document)
    else
      match (document, path[0])
      case (JObj(fields), Key(k)) => if k in fields then Walk(fields[k], path[1..]) else None
      case (JArr(items), Index(n)) => if n < |items| then Walk(items[n], path[1..]) else None
      case _ => None
  }

  /** Section 3: '~' is written ~0 and '/' is written ~1. */
  function EscapeKey(k: string): string {
    if k == "" then ""
    else (if k[0] == '~' then "~0" else if k[0] == '/' then "~1" else [k[0]]) + EscapeKey(k[1..])
  }

  /** Section 4: array elements are referenced by decimal digits without leading zeros. */
  function Token(r: Ref): string {
    match r
    case Key(k) => EscapeKey(k)
    case Index(n) => Decimal(n)
  }

  /** Section 3: each reference token is prefixed by '/'. */
  function Encode(path: seq<Ref>): string {
    if path == [] then "" else "/" + Token(path[0]) + Encode(path[1..])
  }

  // Replacing

  lemma ReplaceHit(rest: string, pattern: string, replacement: string)
    requires pattern != []
    ensures Replace(pattern + rest, pattern, replacement) == replacement + Replace(rest, pattern, replacement)
  {
    assert (pattern + rest)[..|pattern|] == pattern && (pattern + rest)[|pattern|..] == rest;
  }

  lemma ReplaceSkip(c: char, rest: string, pattern: string, replacement: string)
    requires pattern != [] && c != pattern[0]
    ensures Replace([c] + rest, pattern, replacement) == [c] + Replace(rest, pattern, replacement)
  {
    var s := [c] + rest;
    assert s[1..] == rest;
    if |s| >= |pattern| { assert s[..|pattern|][0] == c; }
  }

  /** '~' is written ~0 and '/' stays: what the first replacement leaves of an escaped key. */
  function Half(k: string): string {
    if k == "" then "" else (if k[0] == '~' then "~0" else [k[0]]) + Half(k[1..])
  }

  lemma ReplaceNothing(pattern: string, replacement: string)
    requires pattern != []
    ensures Replace("", pattern, replacement) == ""
  {
  }

  lemma TildeSkip(c: char, rest: string, pattern: string, replacement: string)
    requires |pattern| == 2 && c != pattern[1]
    ensures Replace([pattern[0]] + ([c] + rest), pattern, replacement)
              == [pattern[0]] + Replace([c] + rest, pattern, replacement)
  {
    var s := [pattern[0]] + ([c] + rest);
    assert s[1..] == [c] + rest;
    assert s[..2][1] == c;
  }

  lemma {:induction false} FirstReplacement(k: string)
    ensures Replace(EscapeKey(k), "~1", "/") == Half(k)
  {
    hide Replace;
    if k != "" {
      FirstReplacement(k[1..]);
      var rest := EscapeKey(k[1..]);
      if k[0] == '~' {
        TildeSkip('0', rest, "~1", "/");
        ReplaceSkip('0', rest, "~1", "/");
        assert EscapeKey(k) == "~0" + rest && "~0" + rest == ['~'] + (['0'] + rest);
      } else if k[0] == '/' {
        ReplaceHit(rest, "~1", "/");
      } else {
        ReplaceSkip(k[0], rest, "~1", "/");
      }
    } else {
      ReplaceNothing("~1", "/");
    }
  }

  lemma {:induction false} SecondReplacement(k: string)
    ensures Replace(Half(k), "~0", "~") == k
  {
    if k != "" {
      SecondReplacement(k[1..]);
      if k[0] == '~' {
        ReplaceHit(Half(k[1..]), "~0", "~");
      } else {
        ReplaceSkip(k[0], Half(k[1..]), "~0", "~");
      }
    }
  }

  /** The two successive replacements undo the escaping, for every key. */
  lemma UnescapeEscape(k: string)
    ensures Unescape(EscapeKey(k)) == k
  {
    FirstReplacement(k);
    SecondReplacement(k);
  }

  /** In the other order they would not: the key ~1 is written ~01, which would become '/'. */
  lemma OrderMatters()
    ensures EscapeKey("~1") == "~01"
    ensures Replace(Replace("~01", "~0", "~"), "~1", "/") == "/"
    ensures Unescape("~01") == "~1"
  {
    UnescapeEscape("~1");
    ReplaceHit("1", "~0", "~");
    assert "~01" == "~0" + "1" && "~" + "1" == "~1";
    ReplaceHit("", "~1", "/");
    assert "~1" + "" == "~1" && "/" + "" == "/";
    assert EscapeKey("1") == "1" by { assert EscapeKey("") == ""; }
  }

  lemma {:induction false} UnescapePlain(s: string)
    requires '~' !in s
    ensures Replace(s, "~1", "/") == s && Replace(s, "~0", "~") == s
  {
    if s != "" {
      UnescapePlain(s[1..]);
      ReplaceSkip(s[0], s[1..], "~1", "/");
      ReplaceSkip(s[0], s[1..], "~0", "~");
      assert s == [s[0]] + s[1..];
    }
  }

  lemma {:induction false} EscapeHasNoSlash(k: string)
    ensures '/' !in EscapeKey(k)
  {
    if k != "" { EscapeHasNoSlash(k[1..]); }
  }

  lemma TokenHasNoSlash(r: Ref)
    ensures '/' !in Token(r)
  {
    if r.Key? { EscapeHasNoSlash(r.k); }
  }

  function Tokens(path: seq<Ref>): seq<string> {
    if path == [] then [] else [Token(path[0])] + Tokens(path[1..])
  }

  lemma {:induction false} EncodeSplits(path: seq<Ref>)
    requires path != []
    ensures Encode(path) != "" && Encode(path)[0] == '/' && Split(Encode(path)[1..], '/') == Tokens(path)
  {
    hide Token, Split;
    var t, tail := Token(path[0]), Encode(path[1..]);
    TokenHasNoSlash(path[0]);
    assert Encode(path)[1..] == t + tail;
    if |path| == 1 {
      SplitPlain(t, '/');
      assert t + tail == t && Tokens(path[1..]) == [];
    } else {
      EncodeSplits(path[1..]);
      assert t + tail == t + ['/'] + tail[1..];
      SplitAfter(t, '/', tail[1..]);
    }
  }

  lemma {:induction false} DescendWalks(document: Json, path: seq<Ref>)
    requires Walk(document, path).Some?
    ensures Descend(document, Tokens(path)) == Ok(Walk(document, path).value)
    decreases |path|
  {
    if path != [] {
      match path[0] {
        case Key(k) =>
          UnescapeEscape(k);
          DescendWalks(document.fields[k], path[1..]);
        case Index(n) =>
          DecimalValue(n);
          UnescapePlain(Decimal(n));
          DescendWalks(document.items[n], path[1..]);
      }
    }
  }

  /** For every document and every path that exists in it, evaluating the standard's encoding of the path
      returns exactly that node. */
  lemma PointerFindsNode(document: Json, path: seq<Ref>)
    requires Walk(document, path).Some?
    ensures Pointer(document, Encode(path)) == Ok(Walk(document, path).value)
  {
    if path != [] {
      EncodeSplits(path);
      DescendWalks(document, path);
    }
  }

  lemma {:induction false} DescendReaches(document: Json, tokens: seq<string>) returns (path: seq<Ref>)
    requires Descend(document, tokens).Ok?
    ensures |path| == |tokens| && Walk(document, path) == Some(Descend(document, tokens).value)
    ensures forall i :: 0 <= i < |path| ==>
      match path[i] case Key(k) => k == Unescape(tokens[i]) case Index(n) => Decimal(n) == Unescape(tokens[i])
    decreases |tokens|
  {
    if tokens == [] {
      path := [];
    } else {
      var token := Unescape(tokens[0]);
      var rest := DescendReaches(Child(document, token).value, tokens[1..]);
      if document.JArr? {
        ValueDecimal(token);
        path := [Index(Value(token))] + rest;
      } else {
        path := [Key(token)] + rest;
      }
      assert path[1..] == rest;
    }
  }

  /** Conversely, whatever a pointer evaluates to is a node of the document, reached by the unescaped tokens;
      in particular an array is only ever entered by a canonical index. */
  lemma PointerReachesNode(document: Json, s: string) returns (path: seq<Ref>)
    requires Pointer(document, s).Ok?
    ensures Walk(document, path) == Some(Pointer(document, s).value)
    ensures s == "" ==> path == []
    ensures s != "" ==> s[0] == '/' && |path| == |Split(s[1..], '/')| && forall i :: 0 <= i < |path| ==>
      match path[i]
      case Key(k) => k == Unescape(Split(s[1..], '/')[i])
      case Index(n) => Decimal(n) == Unescape(Split(s[1..], '/')[i])
  {
    if s == "" {
      path := [];
    } else {
      path := DescendReaches(document, Split(s[1..], '/'));
    }
  }

  lemma ChildFails(current: Json, token: string)
    ensures current.JArr? && (forall n: nat :: token != Decimal(n)) ==> Child(current, token) == Err(ContractError)
    ensures current.JArr? ==>
      forall n: nat :: token == Decimal(n) && n >= |current.items| ==> Child(current, token) == Err(IndexError)
    ensures current.JObj? && token !in current.fields ==> Child(current, token) == Err(KeyError)
    ensures !current.JArr? && !current.JObj? ==> Child(current, token) == Err(TypeError)
  {
    hide Decimal;
    if IsCanonical(token) { ValueDecimal(token); }
    forall n: nat | token == Decimal(n) ensures IsCanonical(token) && Value(token) == n { DecimalValue(n); }
  }

  lemma {:induction false} TokenStops(document: Json, before: seq<string>, token: string, after: seq<string>)
    requires Descend(document, before).Ok? && Child(Descend(document, before).value, Unescape(token)).Err?
    ensures Descend(document, before + [token] + after) == Child(Descend(document, before).value, Unescape(token))
    decreases |before|
  {
    var tokens := before + [token] + after;
    if before == [] {
      assert tokens[0] == token;
    } else {
      assert tokens[0] == before[0] && tokens[1..] == before[1..] + [token] + after;
      TokenStops(Child(document, Unescape(before[0])).value, before[1..], token, after);
    }
  }

  /** The first token that leads nowhere decides the error, wherever in the pointer it stands: in an array an index
      that is no canonical numeral is a contract error and one beyond the end an index error, in an object it is a
      missing key, and anything else cannot be indexed. */
  lemma BadTokenRejected(document: Json, before: seq<string>, token: string, after: seq<string>)
    requires Descend(document, before).Ok?
    ensures var node, t := Descend(document, before).value, Unescape(token);
      var r := Descend(document, before + [token] + after);
      && (node.JArr? && (forall n: nat :: t != Decimal(n)) ==> r == Err(ContractError))
      && (node.JArr? ==> forall n: nat :: t == Decimal(n) && n >= |node.items| ==> r == Err(IndexError))
      && (node.JObj? && t !in node.fields ==> r == Err(KeyError))
      && (!node.JArr? && !node.JObj? ==> r == Err(TypeError))
  {
    hide Descend, Child, Unescape, Decimal;
    ChildFails(Descend(document, before).value, Unescape(token));
    if Child(Descend(document, before).value, Unescape(token)).Err? { TokenStops(document, before, token, after); }
  }
}
