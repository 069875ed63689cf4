/** Typed template substitution in values: ${name} and ${env:NAME}. */
module Rendering {
  import opened Redis
  import opened Json
  import opened Text
  import opened PathTemplates

  /** The variables of a case are texts and numbers. */
  datatype Var = Words(s: string) | Number(n: int)

  datatype Env = Env(variables: map<string, Var>, environ: map<string, string>)

  /** None is the ValueError of an unknown variable or a missing environment variable. */
  function Resolve(name: string, env: Env): Option<Var> {
    if |name| >= 4 && name[..4] == "env:" then
      if name[4..] in env.environ then Some(Words(env.environ[name[4..]])) else None
    else if name in env.variables then Some(env.variables[name])
    else None
  }

  function Typed(v: Var): Json {
    match v case Words(s) => JStr(s) case Number(n) => JInt(n)
  }

  /** str(v) */
  function Spelled(v: Var): string {
    match v
    case Words(s) => s
    case Number(n) => if n < 0 then "-" + Decimal(-n) else Decimal(n)
  }

  // The pattern \$\{([^}]+)\}

  /** The length of the name of a placeholder at the start of s; 0 if there is none. */
  function NameAt(s: string): nat
    ensures NameAt(s) > 0 ==> |s| >= NameAt(s) + 3
  {
    if |s| >= 2 && s[..2] == "${" then
      var end := Until(s[2..], '}');
      if end < |s| - 2 then end else 0
    else 0
  }

  /** The whole string is one placeholder. */
  predicate IsWhole(s: string) { NameAt(s) > 0 && |s| == NameAt(s) + 3 }

  function WholeName(s: string): string
    requires IsWhole(s)
  {
    s[2..|s| - 1]
  }

  /** Every placeholder replaced by the text of its value, from left to right. */
  function Substitute(s: string, env: Env): Option<string>
    decreases |s|
  {
    if s == "" then Some("")
    else if NameAt(s) > 0 then
      var v := Resolve(s[2..2 + NameAt(s)], env);
      var rest := Substitute(s[NameAt(s) + 3..], env);
      if v.None? || rest.None? then None else Some(Spelled(v.value) + rest.value)
    else
      var rest := Substitute(s[1..], env);
      if rest.None? then None else Some([s[0]] + rest.value)
  }

  function RenderText(s: string, env: Env): Option<Json> {
    if IsWhole(s) then
      var v := Resolve(WholeName(s), env);
      if v.None? then None else Some(Typed(v.value))
    else
      var t := Substitute(s, env);
      if t.None? then None else Some(JStr(t.value))
  }

  function Render(value: Json, env: Env): Option<Json>
    decreases value
  {
    match value
    case JStr(s) => RenderText(s, env)
    case JArr(items) =>
      if exists i | 0 <= i < |items| :: Render(items[i], env).None? then None
      else Some(JArr(seq(|items|, i requires 0 <= i < |items| =>
        var r := Render(items[i], env); if r.Some? then r.value else JNull)))
    case JObj(fields) =>
      if exists k | k in fields :: Render(fields[k], env).None? then None
      else Some(JObj(map k | k in fields :: var r := Render(fields[k], env); if r.Some? then r.value else JNull))
    case _ => Some(value)
  }

  // What it keeps

  /** b has the structure and the keys of a; only whole-string placeholders may change their type. */
  ghost predicate SameShape(a: Json, b: Json)
    decreases a
  {
    match a
    case JStr(s) => b.JStr? || (IsWhole(s) && b.JInt?)
    case JArr(items) => b.JArr? && |b.items| == |items|
      && forall i :: 0 <= i < |items| ==> SameShape(items[i], b.items[i])
    case JObj(fields) => b.JObj? && b.fields.Keys == fields.Keys
      && forall k :: k in fields ==> SameShape(fields[k], b.fields[k])
    case _ => b == a
  }

  /** Rendering keeps the structure and the keys of every value except at whole-string placeholders. */
  lemma {:induction false} RenderKeepsShape(value: Json, env: Env)
    requires Render(value, env).Some?
    ensures SameShape(value, Render(value, env).value)
    decreases value
  {
    match value
    case JArr(items) =>
      forall i | 0 <= i < |items| ensures SameShape(items[i], Render(value, env).value.items[i]) {
        RenderKeepsShape(items[i], env);
      }
    case JObj(fields) =>
      forall k | k in fields ensures SameShape(fields[k], Render(value, env).value.fields[k]) {
        RenderKeepsShape(fields[k], env);
      }
    case _ =>
  }

  // What it fills in

  /** How a piece is written in a template. */
  function Written(p: Piece): string {
    match p case Lit(t) => t case Hole(n) => "${" + n + "}"
  }

  function Template(pieces: seq<Piece>): string {
    if pieces == [] then "" else Written(pieces[0]) + Template(pieces[1..])
  }

  /** No placeholder starts inside the literal text t when rest follows it. */
  predicate Plain(t: string, rest: string) {
    forall i :: 0 <= i < |t| ==> NameAt(t[i..] + rest) == 0
  }

  /** The pieces a text consists of: placeholders, and literal text in which none starts. */
  predicate Readable(pieces: seq<Piece>) {
    pieces == [] || (Readable(pieces[1..]) &&
      match pieces[0] case Lit(t) => Plain(t, Template(pieces[1..])) case Hole(n) => n != "" && '}' !in n)
  }

  lemma NameAtMeans(s: string)
    requires NameAt(s) > 0
    ensures var name := s[2..2 + NameAt(s)]; name != "" && '}' !in name && s == "${" + name + "}" + s[NameAt(s) + 3..]
  {
    UntilMeans(s[2..], '}');
    var n := NameAt(s);
    assert s[2..][..n] == s[2..2 + n] && s[2..][n] == s[n + 2];
  }

  /** Every text consists of such pieces. */
  lemma {:induction false} EveryTextIsReadable(s: string) returns (pieces: seq<Piece>)
    ensures Readable(pieces) && Template(pieces) == s
    decreases |s|
  {
    if s == "" {
      pieces := [];
    } else if NameAt(s) > 0 {
      var name, tail := s[2..2 + NameAt(s)], s[NameAt(s) + 3..];
      var rest := EveryTextIsReadable(tail);
      pieces := [Hole(name)] + rest;
      NameAtMeans(s);
      assert pieces[1..] == rest;
    } else {
      var rest := EveryTextIsReadable(s[1..]);
      pieces := [Lit([s[0]])] + rest;
      assert pieces[1..] == rest && [s[0]][0..] + s[1..] == s;
    }
  }

  /** The literal text with the values of the placeholders between; values are not scanned again. */
  function Fill(pieces: seq<Piece>, env: Env): Option<string> {
    if pieces == [] then Some("")
    else
      var head := match pieces[0] case Lit(t) => Some(t) case Hole(n) =>
        (var v := Resolve(n, env); if v.None? then None else Some(Spelled(v.value)));
      var rest := Fill(pieces[1..], env);
      if head.None? || rest.None? then None else Some(head.value + rest.value)
  }

  lemma CharStays(c: char, rest: string, env: Env)
    requires NameAt([c] + rest) == 0
    ensures Substitute([c] + rest, env) ==
      var r := Substitute(rest, env);
      if r.None? then None else Some([c] + r.value)
  {
    assert ([c] + rest)[1..] == rest;
  }

  lemma {:induction false} PlainStays(t: string, rest: string, env: Env)
    requires Plain(t, rest)
    ensures Substitute(t + rest, env) ==
      var r := Substitute(rest, env);
      if r.None? then None else Some(t + r.value)
  {
    hide Substitute, NameAt;
    var r := Substitute(rest, env);
    if t == "" {
      assert t + rest == rest;
      assert r.Some? ==> t + r.value == r.value;
    } else {
      assert forall i :: 0 <= i < |t[1..]| ==> t[1..][i..] == t[i + 1..];
      PlainStays(t[1..], rest, env);
      assert t[0..] + rest == t + rest == [t[0]] + (t[1..] + rest);
      CharStays(t[0], t[1..] + rest, env);
      assert r.Some? ==> t + r.value == [t[0]] + (t[1..] + r.value);
    }
  }

  lemma HoleFills(name: string, rest: string, env: Env)
    requires name != "" && '}' !in name
    ensures Substitute("${" + name + "}" + rest, env) ==
      var v, r := Resolve(name, env), Substitute(rest, env);
      if v.None? || r.None? then None else Some(Spelled(v.value) + r.value)
  {
    var s := "${" + name + "}" + rest;
    assert s[2..] == name + ['}'] + rest;
    UntilAfter(name, '}', rest);
    assert s[2..2 + |name|] == name && s[|name| + 3..] == rest;
  }

  lemma NothingToFill(env: Env)
    ensures Substitute("", env) == Some("")
  {
  }

  /** A text (and every text is one, see EveryTextIsReadable) keeps its literal text and gets the
      spelled values in place of its placeholders, in order. */
  lemma {:induction false} TemplateFills(pieces: seq<Piece>, env: Env)
    requires Readable(pieces)
    ensures Substitute(Template(pieces), env) == Fill(pieces, env)
  {
    hide Substitute, Plain, Resolve, Spelled;
    if pieces == [] {
      NothingToFill(env);
    } else {
      var rest := Template(pieces[1..]);
      TemplateFills(pieces[1..], env);
      match pieces[0] {
        case Lit(t) => PlainStays(t, rest, env);
        case Hole(n) => HoleFills(n, rest, env);
      }
    }
  }

  /** A text that is one placeholder becomes the value itself, with its type. */
  lemma WholeIsTyped(name: string, env: Env)
    requires name != "" && '}' !in name
    ensures Render(JStr("${" + name + "}"), env) ==
      var v := Resolve(name, env);
      if v.None? then None else Some(Typed(v.value))
  {
    var s := "${" + name + "}";
    assert s[2..] == name + ['}'] + "";
    UntilAfter(name, '}', "");
    assert WholeName(s) == name;
  }

  // Names and values, spelled out

  /** A number is spelled in decimal digits without leading zeros, with '-' in front when it is negative. */
  lemma NumberSpelled(n: int)
    ensures n >= 0 ==> IsCanonical(Spelled(Number(n))) && Value(Spelled(Number(n))) == n
    ensures n < 0 ==>
      var s := Spelled(Number(n)); s[0] == '-' && IsCanonical(s[1..]) && Value(s[1..]) == -n
  {
    DecimalValue(if n < 0 then -n else n);
  }

  lemma DollarFree(t: string, rest: string)
    requires '$' !in t
    ensures Plain(t, rest)
  {
    forall i | 0 <= i < |t| ensures NameAt(t[i..] + rest) == 0 {
      var s := t[i..] + rest;
      assert |s| >= 2 ==> s[..2][0] == s[0] == t[i];
    }
  }

  lemma DollarFreeStays(t: string, env: Env)
    requires '$' !in t
    ensures Substitute(t, env) == Some(t)
  {
    DollarFree(t, "");
    PlainStays(t, "", env);
    NothingToFill(env);
    assert t + "" == t;
  }

  /** A placeholder with other text around it is not the whole string. */
  lemma NotWhole(name: string, before: string, after: string)
    requires name != "" && '}' !in name && '$' !in before && (before != "" || after != "")
    ensures !IsWhole(before + "${" + name + "}" + after)
  {
    var s := before + "${" + name + "}" + after;
    if before == "" {
      assert s[2..] == name + ['}'] + after;
      UntilAfter(name, '}', after);
    } else {
      assert s[0] == before[0] != '$' && s[..2][0] == s[0];
    }
  }

  lemma Embedded(name: string, env: Env, before: string, after: string)
    requires name != "" && '}' !in name && '$' !in before && '$' !in after && (before != "" || after != "")
    ensures Render(JStr(before + "${" + name + "}" + after), env) ==
      var v := Resolve(name, env);
      if v.None? then None else Some(JStr(before + Spelled(v.value) + after))
  {
    hide Substitute, IsWhole, Resolve;
    var hole := "${" + name + "}" + after;
    NotWhole(name, before, after);
    assert before + "${" + name + "}" + after == before + hole;
    DollarFree(before, hole);
    PlainStays(before, hole, env);
    HoleFills(name, after, env);
    DollarFreeStays(after, env);
    var v := Resolve(name, env);
    assert v.Some? ==> before + (Spelled(v.value) + after) == before + Spelled(v.value) + after;
  }

  /** ${env:NAME} becomes the text of the environment variable of that name, also in the middle of a text, and
      cannot be rendered when there is none. */
  lemma EnvironmentRenders(name: string, env: Env, before: string, after: string)
    requires '}' !in name
    ensures Render(JStr("${env:" + name + "}"), env) ==
      if name in env.environ then Some(JStr(env.environ[name])) else None
    ensures '$' !in before && '$' !in after && (before != "" || after != "") ==>
      Render(JStr(before + "${env:" + name + "}" + after), env) ==
        if name in env.environ then Some(JStr(before + env.environ[name] + after)) else None
  {
    hide Render, Substitute, NameAt;
    assert "${env:" + name + "}" == "${" + ("env:" + name) + "}";
    assert ("env:" + name)[..4] == "env:" && ("env:" + name)[4..] == name;
    WholeIsTyped("env:" + name, env);
    if '$' !in before && '$' !in after && (before != "" || after != "") {
      assert before + "${env:" + name + "}" + after == before + "${" + ("env:" + name) + "}" + after;
      Embedded("env:" + name, env, before, after);
    }
  }

  /** Any other ${name} becomes the variable of that name: as a whole string a text or a number, in the middle of a
      text its spelling; it cannot be rendered when there is none. */
  lemma VariableRenders(name: string, env: Env, before: string, after: string)
    requires name != "" && '}' !in name && (|name| < 4 || name[..4] != "env:")
    ensures Render(JStr("${" + name + "}"), env) ==
      if name !in env.variables then None
      else match env.variables[name] case Words(s) => Some(JStr(s)) case Number(n) => Some(JInt(n))
    ensures '$' !in before && '$' !in after && (before != "" || after != "") ==>
      Render(JStr(before + "${" + name + "}" + after), env) ==
        if name in env.variables then Some(JStr(before + Spelled(env.variables[name]) + after)) else None
  {
    hide Render, Substitute, NameAt;
    WholeIsTyped(name, env);
    if '$' !in before && '$' !in after && (before != "" || after != "") { Embedded(name, env, before, after); }
  }

  // What it needs

  /** The placeholder names of a text, in the order of their evaluation. */
  function TextNames(s: string): set<string>
    decreases |s|
  {
    if s == "" then {}
    else if NameAt(s) > 0 then {s[2..2 + NameAt(s)]} + TextNames(s[NameAt(s) + 3..])
    else TextNames(s[1..])
  }

  /** The placeholder names anywhere in the strings of a value; keys are not looked at. */
  function AllNames(value: Json): set<string>
    decreases value
  {
    match value
    case JStr(s) => TextNames(s)
    case JArr(items) => set i, n | 0 <= i < |items| && n in AllNames(items[i]) :: n
    case JObj(fields) => set k, n | k in fields && n in AllNames(fields[k]) :: n
    case _ => {}
  }

  lemma {:induction false} SubstituteFails(s: string, env: Env)
    ensures Substitute(s, env).None? <==> exists n :: n in TextNames(s) && Resolve(n, env).None?
    ensures TextNames(s) == {} ==> Substitute(s, env) == Some(s)
    decreases |s|
  {
    if s != "" {
      if NameAt(s) > 0 {
        SubstituteFails(s[NameAt(s) + 3..], env);
        if exists n :: n in TextNames(s) && Resolve(n, env).None? {
          var n :| n in TextNames(s) && Resolve(n, env).None?;
          assert n == s[2..2 + NameAt(s)] || n in TextNames(s[NameAt(s) + 3..]);
        }
        if Substitute(s, env).None? && Resolve(s[2..2 + NameAt(s)], env).None? {
          assert s[2..2 + NameAt(s)] in TextNames(s);
        }
      } else {
        SubstituteFails(s[1..], env);
        assert s == [s[0]] + s[1..];
      }
    }
  }

  lemma WholeNames(s: string)
    requires IsWhole(s)
    ensures TextNames(s) == {WholeName(s)}
  {
    assert s[NameAt(s) + 3..] == "";
    assert s[2..2 + NameAt(s)] == WholeName(s);
  }

  /** Rendering fails exactly when some placeholder in the value cannot be resolved; and a value without
      placeholders is left as it is. */
  lemma {:induction false} RenderFails(value: Json, env: Env)
    ensures Render(value, env).None? <==> exists n :: n in AllNames(value) && Resolve(n, env).None?
    ensures AllNames(value) == {} ==> Render(value, env) == Some(value)
    decreases value
  {
    match value
    case JStr(s) =>
      SubstituteFails(s, env);
      if IsWhole(s) { WholeNames(s); }
    case JArr(items) =>
      forall i | 0 <= i < |items|
        ensures Render(items[i], env).None? <==> exists n :: n in AllNames(items[i]) && Resolve(n, env).None?
        ensures AllNames(items[i]) <= AllNames(value)
        ensures AllNames(items[i]) == {} ==> Render(items[i], env) == Some(items[i])
      {
        RenderFails(items[i], env);
      }
      if AllNames(value) == {} {
        var out := Render(value, env).value.items;
        assert forall i :: 0 <= i < |items| ==> out[i] == items[i];
        assert out == items;
      }
    case JObj(fields) =>
      forall k | k in fields
        ensures Render(fields[k], env).None? <==> exists n :: n in AllNames(fields[k]) && Resolve(n, env).None?
        ensures AllNames(fields[k]) <= AllNames(value)
        ensures AllNames(fields[k]) == {} ==> Render(fields[k], env) == Some(fields[k])
      {
        RenderFails(fields[k], env);
      }
      if AllNames(value) == {} {
        var out := Render(value, env).value.fields;
        assert out.Keys == fields.Keys;
        assert forall k :: k in fields ==> out[k] == fields[k];
        assert out == fields;
      }
    case _ =>
  }
}
