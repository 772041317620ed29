/**
 * logging/app-logger.service.ts: turning a log call into one line of text. The
 * message is converted to a string, each `{i}` placeholder is replaced by the
 * formatted i-th parameter, and the result is prefixed with the session id, the
 * optional context and the log method.
 */
module AppLogging {
  import opened Wrappers
  import opened JsValues
  import opened ArrayConversion

  /** `JSON.stringify(object, null, 4)` for arrays and objects, which this model
      takes as given. */
  type Stringify = JsValue -> string

  /** `endl()`. */
  const Endl: string := "\n"

  /** The prefix of every log line. */
  const LinePrefix: string := "[Eppione web app] SessionId: "

  /** `formatUnknownObject(object)` on the values this model has: `null`, `undefined`
      and strings as the source lists them, numbers and booleans through
      `toString()`, arrays and objects through `JSON.stringify`. */
  function FormatUnknownObject(v: JsValue, stringify: Stringify): (r: string)
    ensures v.Null? ==> r == "null"
    ensures v.Undefined? ==> r == "undefined"
    ensures v.Str? ==> r == v.s
    ensures v.Arr? || v.Obj? ==> r == stringify(v)
  {
    match v
    case Null => "null"
    case Undefined => "undefined"
    case Str(s) => s
    case Bool(b) => if b then "true" else "false"
    case Num(n) => IntToDecimal(n)
    case Arr(_) => stringify(v)
    case Obj(_) => stringify(v)
  }

  /** On strings, numbers and booleans the formatting is the value's own `toString()`. */
  lemma FormatPrimitiveIsToString(v: JsValue, stringify: Stringify)
    requires v.Str? || v.Num? || v.Bool?
    ensures FormatUnknownObject(v, stringify) == ToJsString(v)
  {
  }

  /** The formatted elements of a list. */
  function FormatAll(items: seq<JsValue>, stringify: Stringify): (r: seq<string>)
    ensures |r| == |items|
    ensures forall i :: 0 <= i < |items| ==> r[i] == FormatUnknownObject(items[i], stringify)
  {
    if items == [] then [] else [FormatUnknownObject(items[0], stringify)] + FormatAll(items[1..], stringify)
  }

  /** `getMessageAsString(message)`: a string as it is, an array as its formatted
      elements joined by `endl()`, anything else formatted. */
  function GetMessageAsString(message: JsValue, stringify: Stringify): (r: string)
    ensures message.Str? ==> r == message.s
    ensures message.Arr? ==> r == Join(FormatAll(message.items, stringify), Endl)
    ensures !message.Str? && !message.Arr? ==> r == FormatUnknownObject(message, stringify)
  {
    match message
    case Str(s) => s
    case Arr(items) => Join(FormatAll(items, stringify), Endl)
    case _ => FormatUnknownObject(message, stringify)
  }

  /** An array of strings becomes those strings, one per line. */
  lemma StringArrayMessage(strings: seq<string>, stringify: Stringify)
    ensures GetMessageAsString(Arr(seq(|strings|, i requires 0 <= i < |strings| => Str(strings[i]))), stringify)
      == Join(strings, Endl)
  {
    var items := seq(|strings|, i requires 0 <= i < |strings| => Str(strings[i]));
    assert FormatAll(items, stringify) == strings;
  }

  /** The text `{i}` that parameter i replaces. */
  function Placeholder(i: nat): (p: string)
    ensures |p| == |NatToDecimal(i)| + 2 && p[0] == '{' && p[|p| - 1] == '}'
  {
    "{" + NatToDecimal(i) + "}"
  }

  /** `s.replace(new RegExp(pattern, 'g'), rep)` for a literal pattern: matches are
      found from left to right and do not overlap; the replacement is inserted as
      it is. */
  function ReplaceAll(s: string, pat: string, rep: string): string
    requires |pat| > 0
    decreases |s|
  {
    if |s| < |pat| then s
    else if s[..|pat|] == pat then rep + ReplaceAll(s[|pat|..], pat, rep)
    else [s[0]] + ReplaceAll(s[1..], pat, rep)
  }

  /** The loop of `parseString`: the placeholders `{0}`, `{1}`, ... replaced in
      increasing order by the formatted parameters. */
  function ApplyParams(message: string, vals: seq<string>): string
    decreases |vals|
  {
    if vals == [] then message
    else ReplaceAll(ApplyParams(message, vals[..|vals| - 1]), Placeholder(|vals| - 1), vals[|vals| - 1])
  }

  /** One more round replaces the next placeholder. */
  lemma ApplyParamsStep(message: string, list: seq<JsValue>, stringify: Stringify, i: nat)
    requires i < |list|
    ensures ApplyParams(message, FormatAll(list, stringify)[..i + 1])
      == ReplaceAll(ApplyParams(message, FormatAll(list, stringify)[..i]), Placeholder(i), FormatUnknownObject(list[i], stringify))
  {
    var vals := FormatAll(list, stringify);
    assert vals[..i + 1][..i] == vals[..i];
  }

  /** The parameters `parseString` formats: `convertToArray(params)`, each formatted. */
  function FormattedParams(params: JsValue, stringify: Stringify): (vals: seq<string>)
    ensures |vals| == |ConvertToArray(params)|
  {
    FormatAll(ConvertToArray(params), stringify)
  }

  /** `parseString(message, params)`. */
  method ParseString(message: JsValue, params: JsValue, stringify: Stringify) returns (r: string)
    ensures r == ApplyParams(GetMessageAsString(message, stringify), FormattedParams(params, stringify))
    ensures ConvertToArray(params) == [] ==> r == GetMessageAsString(message, stringify)
  {
    var messageAsString := GetMessageAsString(message, stringify);
    var list := ConvertToArray(params);
    if |list| == 0 {
      return messageAsString;
    }
    ghost var vals := FormatAll(list, stringify);
    r := messageAsString;
    var i := 0;
    while i < |list|
      invariant 0 <= i <= |list|
      invariant r == ApplyParams(messageAsString, vals[..i])
    {
      ApplyParamsStep(messageAsString, list, stringify, i);
      r := ReplaceAll(r, Placeholder(i), FormatUnknownObject(list[i], stringify));
      i := i + 1;
    }
    assert vals[..|list|] == vals;
  }

  /** A single parameter that is not an array stands for the list holding it: only
      `{0}` is replaced. */
  lemma SingleParameter(message: string, param: JsValue, stringify: Stringify)
    requires !param.Arr? && !IsNullish(param)
    ensures ApplyParams(message, FormattedParams(param, stringify))
      == ReplaceAll(message, Placeholder(0), FormatUnknownObject(param, stringify))
  {
    assert FormattedParams(param, stringify)[..0] == [];
  }

  predicate NoBrace(s: string) {
    forall j :: 0 <= j < |s| ==> s[j] != '{'
  }

  /** Text without `{` holds no match of a pattern starting with `{` and is kept. */
  lemma {:induction false} ReplaceAllSkipsText(a: string, b: string, pat: string, rep: string)
    requires |pat| > 0 && pat[0] == '{' && NoBrace(a)
    ensures ReplaceAll(a + b, pat, rep) == a + ReplaceAll(b, pat, rep)
    decreases |a|
  {
    if a == [] {
      assert a + b == b;
    } else if |a + b| < |pat| {
      assert ReplaceAll(b, pat, rep) == b;
    } else {
      var s := a + b;
      assert s[0] == a[0] && s[1..] == a[1..] + b;
      ReplaceAllKeepsMismatch(s, pat, rep);
      assert NoBrace(a[1..]) by {
        forall j | 0 <= j < |a[1..]| ensures a[1..][j] != '{' {
          assert a[1..][j] == a[j + 1];
        }
      }
      ReplaceAllSkipsText(a[1..], b, pat, rep);
      assert a == [a[0]] + a[1..];
    }
  }

  /** A text that does not begin with the pattern's first character keeps that character. */
  lemma ReplaceAllKeepsMismatch(s: string, pat: string, rep: string)
    requires 0 < |pat| <= |s| && s[0] != pat[0]
    ensures ReplaceAll(s, pat, rep) == [s[0]] + ReplaceAll(s[1..], pat, rep)
  {
    assert s[..|pat|][0] == s[0];
  }

  /** A placeholder `{k}` can only begin a match of the placeholder `{i}` when k == i. */
  lemma PlaceholderMatch(k: nat, i: nat, b: string)
    requires |Placeholder(k) + b| >= |Placeholder(i)|
    requires (Placeholder(k) + b)[..|Placeholder(i)|] == Placeholder(i)
    ensures k == i
  {
    var dk, di := NatToDecimal(k), NatToDecimal(i);
    var s, p := Placeholder(k) + b, Placeholder(i);
    assert s[|dk| + 1] == '}';
    assert p[|di| + 1] == '}';
    if |dk| < |di| {
      assert false;
    } else if |dk| > |di| {
      assert false;
    } else {
      assert dk == s[1..|dk| + 1] == p[1..|di| + 1] == di;
      NatDecimalInjective(k, i);
    }
  }

  /** A message template: literal text without `{`, and placeholders. */
  datatype Piece = Text(t: string) | Hole(index: nat)

  predicate WellFormed(ps: seq<Piece>) {
    forall j :: 0 <= j < |ps| && ps[j].Text? ==> NoBrace(ps[j].t)
  }

  /** A piece after the placeholders below `n` are filled from `vals`. */
  function PieceText(p: Piece, vals: seq<string>, n: nat): string {
    match p
    case Text(t) => t
    case Hole(k) => if k < n && k < |vals| then vals[k] else Placeholder(k)
  }

  /** A template after the placeholders below `n` are filled from `vals`. */
  function RenderUpTo(ps: seq<Piece>, vals: seq<string>, n: nat): string
    decreases |ps|
  {
    if ps == [] then "" else PieceText(ps[0], vals, n) + RenderUpTo(ps[1..], vals, n)
  }

  /** The template's own text: every placeholder written out. */
  function TemplateText(ps: seq<Piece>): string {
    RenderUpTo(ps, [], 0)
  }

  /** The reference meaning of a message with parameters: each placeholder `{k}`
      with a parameter shows that parameter, any other placeholder stays as it is. */
  function Render(ps: seq<Piece>, vals: seq<string>): string {
    RenderUpTo(ps, vals, |vals|)
  }

  lemma {:induction false} RenderNothingFilled(ps: seq<Piece>, vals: seq<string>)
    ensures RenderUpTo(ps, vals, 0) == TemplateText(ps)
    decreases |ps|
  {
    if ps != [] {
      RenderNothingFilled(ps[1..], vals);
    }
  }

  /** Replacing `{i}` in one piece followed by more text fills that piece if it is
      the placeholder `{i}` and keeps it otherwise. */
  lemma ReplacePiece(p: Piece, rest: string, vals: seq<string>, i: nat)
    requires i < |vals| && (p.Text? ==> NoBrace(p.t))
    requires forall k :: 0 <= k < |vals| ==> NoBrace(vals[k])
    ensures ReplaceAll(PieceText(p, vals, i) + rest, Placeholder(i), vals[i])
      == PieceText(p, vals, i + 1) + ReplaceAll(rest, Placeholder(i), vals[i])
  {
    var pat := Placeholder(i);
    match p
    case Text(t) =>
      ReplaceAllSkipsText(t, rest, pat, vals[i]);
    case Hole(k) =>
      if k < i {
        ReplaceAllSkipsText(vals[k], rest, pat, vals[i]);
      } else if k == i {
        var s := pat + rest;
        assert s[..|pat|] == pat;
        assert s[|pat|..] == rest;
      } else {
        var s := Placeholder(k) + rest;
        if |s| >= |pat| && s[..|pat|] == pat {
          PlaceholderMatch(k, i, rest);
        }
        var tail := NatToDecimal(k) + "}";
        assert NoBrace(tail);
        assert s[1..] == tail + rest;
        ReplaceAllSkipsText(tail, rest, pat, vals[i]);
        assert Placeholder(k) == "{" + tail;
      }
  }

  /** One round of the loop fills exactly the placeholder `{i}`. */
  lemma {:induction false} ReplaceFillsOneHole(ps: seq<Piece>, vals: seq<string>, i: nat)
    requires i < |vals| && WellFormed(ps)
    requires forall k :: 0 <= k < |vals| ==> NoBrace(vals[k])
    ensures ReplaceAll(RenderUpTo(ps, vals, i), Placeholder(i), vals[i]) == RenderUpTo(ps, vals, i + 1)
    decreases |ps|
  {
    if ps != [] {
      assert WellFormed(ps[1..]) by {
        forall j | 0 <= j < |ps[1..]| && ps[1..][j].Text? ensures NoBrace(ps[1..][j].t) {
          assert ps[1..][j] == ps[j + 1];
        }
      }
      ReplaceFillsOneHole(ps[1..], vals, i);
      ReplacePiece(ps[0], RenderUpTo(ps[1..], vals, i), vals, i);
    }
  }

  /** After the first `n` rounds, the placeholders below `n` are filled. */
  lemma {:induction false} ApplyParamsFills(ps: seq<Piece>, vals: seq<string>, n: nat)
    requires n <= |vals| && WellFormed(ps)
    requires forall k :: 0 <= k < |vals| ==> NoBrace(vals[k])
    ensures ApplyParams(TemplateText(ps), vals[..n]) == RenderUpTo(ps, vals, n)
    decreases n
  {
    if n == 0 {
      assert vals[..0] == [];
      RenderNothingFilled(ps, vals);
    } else {
      assert vals[..n][..n - 1] == vals[..n - 1];
      ApplyParamsFills(ps, vals, n - 1);
      ReplaceFillsOneHole(ps, vals, n - 1);
    }
  }

  /** `parseString` agrees with the reference meaning of a template whenever no
      formatted parameter contains `{`: `{k}` becomes the k-th parameter for each k
      below the number of parameters, and higher placeholders are left untouched. */
  lemma ParseStringRenders(ps: seq<Piece>, params: JsValue, stringify: Stringify)
    requires WellFormed(ps)
    requires forall k :: 0 <= k < |FormattedParams(params, stringify)| ==> NoBrace(FormattedParams(params, stringify)[k])
    ensures ApplyParams(GetMessageAsString(Str(TemplateText(ps)), stringify), FormattedParams(params, stringify))
      == Render(ps, FormattedParams(params, stringify))
  {
    var vals := FormattedParams(params, stringify);
    ApplyParamsFills(ps, vals, |vals|);
    assert vals[..|vals|] == vals;
  }

  /** The `context` argument: a name, or a class whose `name` is used. */
  datatype Context = ContextName(s: string) | ContextType(name: string)

  /** The context part of a line: an absent or empty context name is falsy and
      leaves a single space. */
  function ContextString(context: Option<Context>): (r: string)
    ensures (context.None? || context == Some(ContextName(""))) <==> r == " "
    // otherwise the name stands between " Context: " and ", ", and can be read back
    ensures context.Some? && context.value.ContextName? && context.value.s != "" ==>
      r == " Context: " + context.value.s + ", "
    ensures context.Some? && context.value.ContextType? ==> r == " Context: " + context.value.name + ", "
    ensures r != " " ==> 12 <= |r| && r[..10] == " Context: " && r[|r| - 2..] == ", "
  {
    match context
    case None => " "
    case Some(ContextName(s)) => if s == "" then " " else " Context: " + s + ", "
    case Some(ContextType(name)) => " Context: " + name + ", "
  }

  /** The line `logMessageAsync` writes: the session prefix, the context part, the
      method, a colon and the formatted message. */
  function LogLine(sessionId: string, logType: string, formatted: string, context: Option<Context>): (line: string)
    ensures |line| == |LinePrefix| + |sessionId| + 1 + |ContextString(context)| + |logType| + 2 + |formatted|
    ensures line[..|LinePrefix| + |sessionId| + 1] == LinePrefix + sessionId + ","
    ensures line[|line| - |formatted| - |logType| - 2..] == logType + ": " + formatted
    ensures line[|LinePrefix| + |sessionId| + 1..|line| - |formatted| - |logType| - 2] == ContextString(context)
  {
    var head := LinePrefix + sessionId + ",";
    var tail := logType + ": " + formatted;
    assert (head + ContextString(context) + tail)[..|head|] == head;
    assert (head + ContextString(context) + tail)[|head|..|head| + |ContextString(context)|] == ContextString(context);
    head + ContextString(context) + tail
  }

  /** `logMessageAsync`'s text for one call, with the session id given. */
  method LogMessage(sessionId: string, logType: string, message: JsValue, params: JsValue,
                    context: Option<Context>, stringify: Stringify) returns (line: string)
    ensures line == LogLine(sessionId, logType,
      ApplyParams(GetMessageAsString(message, stringify), FormattedParams(params, stringify)), context)
  {
    var formatted := ParseString(message, params, stringify);
    line := LogLine(sessionId, logType, formatted, context);
  }
}
