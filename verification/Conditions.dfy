/**
 The condition language of ingestion nodes (`internal/biz/rag/ingestion_condition.go`): JSON rules built
 from all/any/not and field comparisons, and a string form with `!`, `||` and `&&`.

 What a single comparison answers, and how a number is written, are parameters (`Context`).
 */
module Conditions {
  import opened Basics
  import Text

  /** A decoded JSON value; of an object, the six entries the evaluator looks at. */
  datatype Value =
    | Nil
    | Bool(b: bool)
    | Str(s: string)
    | Number(n: real)
    | Array(items: seq<Value>)
    | Object(all: Option<Value>, any: Option<Value>, not: Option<Value>,
             field: Option<Value>, operator: Option<Value>, value: Option<Value>)

  /** `show` is `fmt.Sprint`, `compare` a field comparison of a rule, `atom` a string without connectives. */
  datatype Context = Context(show: Value -> string, compare: (string, Value, string) -> bool, atom: string -> bool)

  function Entry(o: Option<Value>): Value {
    if o.Some? then o.value else Nil
  }

  function StringValue(v: Value, show: Value -> string): string {
    match v
    case Nil => ""
    case Str(s) => s
    case _ => show(v)
  }

  // ----- Structural validity -----

  /** The first of all, any, not that is there decides how a rule is read. */
  predicate Valid(c: Value, show: Value -> string) {
    match c
    case Nil => true
    case Bool(_) => true
    case Str(_) => true
    case Number(_) => false
    case Array(_) => false
    case Object(all, any, not, field, _, _) =>
      if all.Some? then all.value.Array? && forall i :: 0 <= i < |all.value.items| ==> Valid(all.value.items[i], show)
      else if any.Some? then
        any.value.Array? && forall i :: 0 <= i < |any.value.items| ==> Valid(any.value.items[i], show)
      else if not.Some? then Valid(not.value, show)
      else !Text.IsBlank(StringValue(Entry(field), show))
  }

  /** The conditions that evaluating `c` would descend into. */
  function Children(c: Value): seq<Value> {
    if !c.Object? then []
    else if c.all.Some? then if c.all.value.Array? then c.all.value.items else []
    else if c.any.Some? then if c.any.value.Array? then c.any.value.items else []
    else if c.not.Some? then [c.not.value]
    else []
  }

  /** `c` itself has none of the shapes the evaluator knows. */
  predicate Malformed(c: Value, show: Value -> string) {
    || c.Number? || c.Array?
    || (c.Object? &&
        if c.all.Some? then !c.all.value.Array?
        else if c.any.Some? then !c.any.value.Array?
        else c.not.None? && Text.IsBlank(StringValue(Entry(c.field), show)))
  }

  /** The condition at the end of a path of child positions. */
  function Descend(c: Value, path: seq<nat>): Option<Value>
    decreases |path|
  {
    if path == [] then Some(c)
    else if path[0] < |Children(c)| then Descend(Children(c)[path[0]], path[1..])
    else None
  }

  ghost predicate HasMalformed(c: Value, show: Value -> string) {
    exists path :: Descend(c, path).Some? && Malformed(Descend(c, path).value, show)
  }

  lemma ValidOneLevel(c: Value, show: Value -> string)
    ensures Valid(c, show) <==>
              !Malformed(c, show) && forall i :: 0 <= i < |Children(c)| ==> Valid(Children(c)[i], show)
  {
    if c.Object? && c.all.Some? {
      assert c.all.value.Array? ==> Children(c) == c.all.value.items;
    } else if c.Object? && c.any.Some? {
      assert c.any.value.Array? ==> Children(c) == c.any.value.items;
    } else if c.Object? && c.not.Some? {
      assert Children(c) == [c.not.value] && Children(c)[0] == c.not.value;
    }
  }

  lemma ChildIsSmaller(c: Value, i: nat)
    requires i < |Children(c)|
    ensures Children(c)[i] < c
  {
    var child := Children(c)[i];
    if c.all.Some? {
      assert child == c.all.value.items[i] && child < c.all.value < c.all < c;
    } else if c.any.Some? {
      assert child == c.any.value.items[i] && child < c.any.value < c.any < c;
    } else {
      assert child == c.not.value && child < c.not < c;
    }
  }

  lemma {:induction false} ValidBelow(c: Value, show: Value -> string, path: seq<nat>)
    requires Valid(c, show) && Descend(c, path).Some?
    ensures Valid(Descend(c, path).value, show)
    decreases |path|
  {
    ValidOneLevel(c, show);
    if path != [] { ValidBelow(Children(c)[path[0]], show, path[1..]); }
  }

  lemma {:induction false} MalformedBelow(c: Value, show: Value -> string) returns (path: seq<nat>)
    requires !Valid(c, show)
    ensures Descend(c, path).Some? && Malformed(Descend(c, path).value, show)
    decreases c
  {
    ValidOneLevel(c, show);
    path := [];
    if !Malformed(c, show) {
      var i :| 0 <= i < |Children(c)| && !Valid(Children(c)[i], show);
      ChildIsSmaller(c, i);
      var rest := MalformedBelow(Children(c)[i], show);
      path := [i] + rest;
      assert path[1..] == rest;
    }
  }

  /** A condition is structurally valid exactly when nothing it would descend into is malformed. */
  lemma ValidIffNothingMalformed(c: Value, show: Value -> string)
    ensures Valid(c, show) <==> !HasMalformed(c, show)
  {
    if Valid(c, show) {
      forall path | Descend(c, path).Some? ensures !Malformed(Descend(c, path).value, show) {
        ValidBelow(c, show, path);
        ValidOneLevel(Descend(c, path).value, show);
      }
    } else {
      var path := MalformedBelow(c, show);
    }
  }

  // ----- Splitting a string at its connectives -----

  predicate IsQuote(c: char) {
    c == '\'' || c == '"'
  }

  /** The quote that is open after the character at `i`, given the one open before it. */
  function NextQuote(expr: string, i: nat, quote: Option<char>): Option<char>
    requires i < |expr|
  {
    if !IsQuote(expr[i]) || (i > 0 && expr[i - 1] == '\\') then quote
    else if quote.None? then Some(expr[i])
    else if quote.value == expr[i] then None
    else quote
  }

  /** The quote that is open before position `i`. */
  function QuoteAt(expr: string, i: nat): Option<char>
    requires i <= |expr|
  {
    if i == 0 then None else NextQuote(expr, i - 1, QuoteAt(expr, i - 1))
  }

  predicate SeparatorAt(expr: string, sep: string, i: int) {
    0 <= i && i + |sep| <= |expr| && expr[i..i + |sep|] == sep
  }

  /** An occurrence of the separator outside quotes. */
  predicate TopLevel(expr: string, sep: string, i: int) {
    SeparatorAt(expr, sep, i) && QuoteAt(expr, i).None?
  }

  /** A separator is not empty and contains no quote. */
  predicate IsSeparator(sep: string) {
    sep != "" && forall i :: 0 <= i < |sep| ==> !IsQuote(sep[i]) && sep[i] != '\\'
  }

  /**
   The text between the cuts, scanning from `i` with the last cut at `start`: the scan cuts at the first
   separator outside quotes and goes on behind it.
   */
  function Pieces(expr: string, sep: string, start: nat, i: nat): (pieces: seq<string>)
    requires IsSeparator(sep) && start <= i && start <= |expr|
    ensures pieces != []
    decreases |expr| - i
  {
    if i + |sep| > |expr| then [expr[start..]]
    else if TopLevel(expr, sep, i) then [expr[start..i]] + Pieces(expr, sep, i + |sep|, i + |sep|)
    else Pieces(expr, sep, start, i + 1)
  }

  function TrimAll(pieces: seq<string>): seq<string> {
    if pieces == [] then [] else TrimAll(pieces[..|pieces| - 1]) + [Text.Trim(pieces[|pieces| - 1])]
  }

  /** `splitConditionExpression`: nothing if the separator does not occur, else the trimmed pieces. */
  function Split(expr: string, sep: string): seq<string>
    requires IsSeparator(sep)
  {
    var pieces := Pieces(expr, sep, 0, 0);
    if |pieces| == 1 then [] else TrimAll(pieces)
  }

  lemma {:induction false} TrimAllAre(pieces: seq<string>)
    ensures |TrimAll(pieces)| == |pieces|
    ensures forall k :: 0 <= k < |pieces| ==> TrimAll(pieces)[k] == Text.Trim(pieces[k])
  {
    if pieces != [] { TrimAllAre(pieces[..|pieces| - 1]); }
  }

  lemma TrimAllStep(pieces: seq<string>, piece: string)
    ensures TrimAll(pieces + [piece]) == TrimAll(pieces) + [Text.Trim(piece)]
  {
    assert (pieces + [piece])[..|pieces|] == pieces;
  }

  method SplitConditionExpression(expr: string, sep: string) returns (parts: seq<string>)
    requires IsSeparator(sep)
    ensures parts == Split(expr, sep)
  {
    hide Pieces, TrimAll, QuoteAt, TopLevel;
    parts := [];
    var start: nat, i: nat := 0, 0;
    var quote: Option<char> := None;
    ghost var raw: seq<string> := [];
    NoQuoteAtStart(expr);
    while i + |sep| <= |expr|
      invariant start <= i && start <= |expr| && (i <= |expr| ==> quote == QuoteAt(expr, i))
      invariant i <= |expr| && parts == TrimAll(raw) && |parts| == |raw|
      invariant raw + Pieces(expr, sep, start, i) == Pieces(expr, sep, 0, 0)
    {
      PiecesStep(expr, sep, start, i);
      if IsQuote(expr[i]) && (i == 0 || expr[i - 1] != '\\') {
        if quote.None? {
          quote := Some(expr[i]);
        } else if quote.value == expr[i] {
          quote := None;
        }
        i := i + 1;
        continue;
      }
      if quote.None? && expr[i..i + |sep|] == sep {
        QuotePastSeparator(expr, sep, i, |sep|);
        TrimAllStep(raw, expr[start..i]);
        parts := parts + [Text.Trim(expr[start..i])];
        raw := raw + [expr[start..i]];
        start := i + |sep|;
        i := i + |sep|;
      } else {
        i := i + 1;
      }
    }
    PiecesEnd(expr, sep, start, i);
    if |parts| == 0 {
      assert Pieces(expr, sep, 0, 0) == [expr[start..]];
      return [];
    }
    TrimAllStep(raw, expr[start..]);
    parts := parts + [Text.Trim(expr[start..])];
  }

  lemma NoQuoteAtStart(expr: string)
    ensures QuoteAt(expr, 0) == None && TrimAll([]) == []
  {
  }

  lemma PiecesEnd(expr: string, sep: string, start: nat, i: nat)
    requires IsSeparator(sep) && start <= i && start <= |expr| < i + |sep|
    ensures Pieces(expr, sep, start, i) == [expr[start..]]
  {
  }

  lemma PiecesStep(expr: string, sep: string, start: nat, i: nat)
    requires IsSeparator(sep) && start <= i && i + |sep| <= |expr|
    ensures TopLevel(expr, sep, i) <==> expr[i..i + |sep|] == sep && QuoteAt(expr, i).None?
    ensures TopLevel(expr, sep, i) ==>
              Pieces(expr, sep, start, i) == [expr[start..i]] + Pieces(expr, sep, i + |sep|, i + |sep|)
    ensures !TopLevel(expr, sep, i) ==> Pieces(expr, sep, start, i) == Pieces(expr, sep, start, i + 1)
    ensures QuoteAt(expr, i + 1) == NextQuote(expr, i, QuoteAt(expr, i))
    ensures IsQuote(expr[i]) ==> expr[i..i + |sep|] != sep
  {
    if IsQuote(expr[i]) { assert expr[i..i + |sep|][0] != sep[0]; }
  }

  /** A separator opens and closes no quote. */
  lemma {:induction false} QuotePastSeparator(expr: string, sep: string, i: nat, n: nat)
    requires IsSeparator(sep) && SeparatorAt(expr, sep, i) && n <= |sep|
    ensures QuoteAt(expr, i + n) == QuoteAt(expr, i)
  {
    if n > 0 {
      QuotePastSeparator(expr, sep, i, n - 1);
      assert expr[i..i + |sep|][n - 1] == expr[i + n - 1];
    }
  }

  // ----- What splitting promises -----

  function Rejoin(pieces: seq<string>, sep: string): string {
    if pieces == [] then "" else if |pieces| == 1 then pieces[0] else pieces[0] + sep + Rejoin(pieces[1..], sep)
  }

  lemma RejoinCons(piece: string, rest: seq<string>, sep: string)
    requires rest != []
    ensures Rejoin([piece] + rest, sep) == piece + sep + Rejoin(rest, sep)
  {
    assert ([piece] + rest)[1..] == rest;
  }

  lemma RejoinOne(piece: string, sep: string)
    ensures Rejoin([piece], sep) == piece
  {
  }

  lemma InThree(expr: string, a: nat, b: nat, c: nat)
    requires a <= b <= c <= |expr|
    ensures expr[a..] == expr[a..b] + expr[b..c] + expr[c..]
  {
  }

  /** Splitting loses nothing: the pieces rejoin to the expression. */
  lemma {:induction false} PiecesRejoin(expr: string, sep: string, start: nat, i: nat)
    requires IsSeparator(sep) && start <= i && start <= |expr|
    ensures Rejoin(Pieces(expr, sep, start, i), sep) == expr[start..]
    decreases |expr| - i
  {
    hide Pieces, Rejoin, TopLevel, QuoteAt;
    if i + |sep| > |expr| {
      PiecesEnd(expr, sep, start, i);
      RejoinOne(expr[start..], sep);
    } else {
      PiecesStep(expr, sep, start, i);
      if TopLevel(expr, sep, i) {
        var next := i + |sep|;
        PiecesRejoin(expr, sep, next, next);
        RejoinCons(expr[start..i], Pieces(expr, sep, next, next), sep);
        InThree(expr, start, i, next);
      } else {
        PiecesRejoin(expr, sep, start, i + 1);
      }
    }
  }

  lemma {:induction false} RejoinLength(pieces: seq<string>, sep: string, k: nat)
    requires k < |pieces|
    ensures |Rejoin(pieces, sep)| >= |pieces[k]| + (|pieces| - 1) * |sep|
  {
    if |pieces| > 1 {
      RejoinLength(pieces[1..], sep, if k == 0 then 0 else k - 1);
      assert (|pieces| - 1) * |sep| == (|pieces[1..]| - 1) * |sep| + |sep|;
      if k > 0 { assert pieces[1..][k - 1] == pieces[k]; }
    }
  }

  /** Each part is strictly shorter than the expression it came from. */
  lemma {:induction false} PartsAreShorter(expr: string, sep: string)
    requires IsSeparator(sep)
    ensures forall k :: 0 <= k < |Split(expr, sep)| ==> |Split(expr, sep)[k]| < |expr|
  {
    hide Pieces;
    var pieces := Pieces(expr, sep, 0, 0);
    TrimAllAre(pieces);
    PiecesRejoin(expr, sep, 0, 0);
    assert expr[0..] == expr;
    forall k | 0 <= k < |Split(expr, sep)| ensures |Split(expr, sep)[k]| < |expr| {
      RejoinLength(pieces, sep, k);
      assert (|pieces| - 1) * |sep| >= 1;
      Text.TrimLength(pieces[k]);
    }
  }

  /** A piece that starts outside quotes, just behind a separator, has the quotes the expression has there. */
  lemma {:induction false} QuotesOfPiece(expr: string, a: nat, b: nat, k: nat)
    requires a + k <= b <= |expr| && QuoteAt(expr, a).None? && (a > 0 ==> expr[a - 1] != '\\')
    ensures QuoteAt(expr[a..b], k) == QuoteAt(expr, a + k)
  {
    if k > 0 { QuotesOfPiece(expr, a, b, k - 1); }
  }

  lemma NoTopLevelInPiece(expr: string, sep: string, a: nat, b: nat, p: int)
    requires IsSeparator(sep) && a <= b <= |expr| && QuoteAt(expr, a).None? && (a > 0 ==> expr[a - 1] != '\\')
    requires forall q :: a <= q && q + |sep| <= b ==> !TopLevel(expr, sep, q)
    ensures !TopLevel(expr[a..b], sep, p)
  {
    if SeparatorAt(expr[a..b], sep, p) {
      QuotesOfPiece(expr, a, b, p);
      forall k | 0 <= k < |sep| ensures expr[a + p + k] == sep[k] { assert expr[a..b][p..p + |sep|][k] == sep[k]; }
      assert expr[a + p..a + p + |sep|] == sep;
      assert !TopLevel(expr, sep, a + p);
    }
  }

  /** No separator outside quotes is left in a piece. */
  lemma {:induction false} PiecesAreWhole(expr: string, sep: string, start: nat, i: nat, k: nat, p: int)
    requires IsSeparator(sep) && start <= i && start <= |expr| && k < |Pieces(expr, sep, start, i)|
    requires QuoteAt(expr, start).None? && (start > 0 ==> expr[start - 1] != '\\')
    requires forall q :: start <= q < i ==> !TopLevel(expr, sep, q)
    ensures !TopLevel(Pieces(expr, sep, start, i)[k], sep, p)
    decreases |expr| - i
  {
    hide Pieces, QuoteAt, SeparatorAt;
    if i + |sep| > |expr| {
      PiecesEnd(expr, sep, start, i);
      NoneBehind(expr, sep, i);
      assert expr[start..|expr|] == expr[start..];
      NoTopLevelInPiece(expr, sep, start, |expr|, p);
    } else {
      PiecesStep(expr, sep, start, i);
      if TopLevel(expr, sep, i) {
        if k == 0 {
          NoTopLevelInPiece(expr, sep, start, i, p);
        } else {
          BehindSeparator(expr, sep, i);
          PiecesAreWhole(expr, sep, i + |sep|, i + |sep|, k - 1, p);
        }
      } else {
        PiecesAreWhole(expr, sep, start, i + 1, k, p);
      }
    }
  }

  lemma NoneBehind(expr: string, sep: string, i: nat)
    requires i + |sep| > |expr|
    ensures forall q :: i <= q ==> !TopLevel(expr, sep, q)
  {
  }

  /** Behind a separator outside quotes no quote is open and none is escaped. */
  lemma {:induction false} BehindSeparator(expr: string, sep: string, i: nat)
    requires IsSeparator(sep) && TopLevel(expr, sep, i)
    ensures i + |sep| <= |expr| && QuoteAt(expr, i + |sep|).None? && expr[i + |sep| - 1] != '\\'
  {
    QuotePastSeparator(expr, sep, i, |sep|);
    assert expr[i..i + |sep|][|sep| - 1] == expr[i + |sep| - 1];
  }

  /**
   Quotes hide connectives: behind an opening quote, single or double, the other kind and the escaped ones change
   nothing, so no separator counts until the first unescaped quote of the same kind, which closes it.
   */
  lemma {:induction false} QuotesHide(expr: string, i: nat, j: nat, sep: string)
    requires i < j <= |expr| && QuoteAt(expr, i).None?
    requires expr[i] == '\'' || expr[i] == '"'
    requires i > 0 ==> expr[i - 1] != '\\'
    requires forall k :: i < k < j ==> expr[k] != expr[i] || expr[k - 1] == '\\'
    ensures QuoteAt(expr, j) == Some(expr[i]) && !TopLevel(expr, sep, j)
    ensures j < |expr| && expr[j] == expr[i] && expr[j - 1] != '\\' ==> QuoteAt(expr, j + 1).None?
    decreases j
  {
    if j > i + 1 { QuotesHide(expr, i, j - 1, sep); }
  }

  /** The character at `k` is no quote, or an escaped one. */
  predicate OpensNothing(expr: string, k: nat)
    requires k < |expr|
  {
    (expr[k] != '\'' && expr[k] != '"') || (k > 0 && expr[k - 1] == '\\')
  }

  /** Outside quotes every occurrence of a separator counts, until an unescaped quote opens. */
  lemma {:induction false} NothingHidden(expr: string, i: nat, j: nat, sep: string)
    requires i <= j <= |expr| && QuoteAt(expr, i).None?
    requires forall k :: i <= k < j ==> OpensNothing(expr, k)
    ensures QuoteAt(expr, 0).None? && QuoteAt(expr, j).None?
    ensures TopLevel(expr, sep, j) <==> j + |sep| <= |expr| && expr[j..j + |sep|] == sep
    decreases j
  {
    if j > i {
      NothingHidden(expr, i, j - 1, sep);
      assert OpensNothing(expr, j - 1);
    }
  }

  // ----- Evaluation -----

  const OR := "||"
  const AND := "&&"

  /** `strconv.ParseBool` */
  function ParseBool(s: string): Option<bool> {
    if s == "1" || s == "t" || s == "T" || s == "true" || s == "TRUE" || s == "True" then Some(true)
    else if s == "0" || s == "f" || s == "F" || s == "false" || s == "FALSE" || s == "False" then Some(false)
    else None
  }

  function Parts(s: string, sep: string): (parts: seq<string>)
    requires IsSeparator(sep)
    ensures forall k :: 0 <= k < |parts| ==> |parts[k]| < |s|
  {
    PartsAreShorter(s, sep);
    Split(s, sep)
  }

  lemma Connectives()
    ensures IsSeparator(OR) && IsSeparator(AND)
  {
  }

  /** `evaluateString`: negation covers all that follows it, then disjunction, then conjunction. */
  function EvaluateString(ctx: Context, condition: string): bool
    decreases |condition|
  {
    Connectives();
    Text.TrimLength(condition);
    var s := Text.Trim(condition);
    if s == "" then true
    else if ParseBool(s).Some? then ParseBool(s).value
    else if s[0] == '!' then
      Text.TrimLength(s[1..]);
      !EvaluateString(ctx, Text.Trim(s[1..]))
    else
      var disjuncts := Parts(s, OR);
      if |disjuncts| > 1 then exists k :: 0 <= k < |disjuncts| && EvaluateString(ctx, disjuncts[k])
      else
        var conjuncts := Parts(s, AND);
        if |conjuncts| > 1 then forall k :: 0 <= k < |conjuncts| ==> EvaluateString(ctx, conjuncts[k])
        else ctx.atom(s)
  }

  /** `evaluateValid` with `evaluateObject`. */
  function EvaluateValid(ctx: Context, c: Value): bool {
    match c
    case Nil => true
    case Bool(b) => b
    case Str(s) => EvaluateString(ctx, s)
    case Number(_) => false
    case Array(_) => false
    case Object(all, any, not, field, operator, value) =>
      if all.Some? then
        (all.value.Array? && forall i :: 0 <= i < |all.value.items| ==> EvaluateValid(ctx, all.value.items[i])) ||
        all.value.Nil?
      else if any.Some? then
        any.value.Array? && exists i :: 0 <= i < |any.value.items| && EvaluateValid(ctx, any.value.items[i])
      else if not.Some? then !EvaluateValid(ctx, not.value)
      else
        var name := Text.Trim(StringValue(Entry(field), ctx.show));
        var op := Text.Trim(StringValue(Entry(operator), ctx.show));
        name != "" && ctx.compare(name, Entry(value), if op == "" then "eq" else op)
  }

  predicate Evaluate(ctx: Context, c: Value) {
    Valid(c, ctx.show) && EvaluateValid(ctx, c)
  }

  // ----- What evaluation promises -----

  /** A malformed part makes the whole condition false, wherever it stands, under a negation too. */
  lemma FailsClosed(ctx: Context, c: Value)
    requires HasMalformed(c, ctx.show)
    ensures !Evaluate(ctx, c)
  {
    ValidIffNothingMalformed(c, ctx.show);
  }

  /** What the simple conditions mean. */
  lemma LeavesMean(ctx: Context, b: bool, s: string, n: real, items: seq<Value>)
    ensures Evaluate(ctx, Nil) && Evaluate(ctx, Bool(b)) == b && Evaluate(ctx, Str(s)) == EvaluateString(ctx, s)
    ensures !Evaluate(ctx, Number(n)) && !Evaluate(ctx, Array(items))
  {
  }

  /** The text of a name in a rule: none if it is missing, and what is not a string is written out. */
  predicate IsTextOf(name: string, v: Option<Value>, show: Value -> string) {
    match v
    case Some(Str(s)) => name == Text.Trim(s)
    case Some(Nil) => name == ""
    case Some(other) => name == Text.Trim(show(other))
    case None => name == ""
  }

  /** A rule compares its field, by equality if it names no operator; without a field it is false. */
  lemma RuleMeans(ctx: Context, field: Option<Value>, operator: Option<Value>, value: Option<Value>, name: string,
                  op: string)
    requires IsTextOf(name, field, ctx.show) && IsTextOf(op, operator, ctx.show)
    ensures Evaluate(ctx, Object(None, None, None, field, operator, value)) <==>
              && name != ""
              && ctx.compare(name, if value.Some? then value.value else Nil, if op != "" then op else ['e', 'q'])
  {
    assert "eq" == ['e', 'q'];
    assert Text.Trim("") == "";
  }

  /** Of all, any and not the first that is there decides, whatever else the object has. */
  lemma FirstKeyDecides(ctx: Context, all: Option<Value>, any: Option<Value>, not: Option<Value>, field: Option<Value>,
                        operator: Option<Value>, value: Option<Value>)
    ensures all.Some? ==>
              Evaluate(ctx, Object(all, any, not, field, operator, value)) ==
              Evaluate(ctx, Object(all, None, None, None, None, None))
    ensures all.None? && any.Some? ==>
              Evaluate(ctx, Object(all, any, not, field, operator, value)) ==
              Evaluate(ctx, Object(None, any, None, None, None, None))
    ensures all.None? && any.None? && not.Some? ==>
              Evaluate(ctx, Object(all, any, not, field, operator, value)) ==
              Evaluate(ctx, Object(None, None, not, None, None, None))
  {
  }

  function All(items: seq<Value>): Value {
    Object(Some(Array(items)), None, None, None, None, None)
  }

  function Any(items: seq<Value>): Value {
    Object(None, Some(Array(items)), None, None, None, None)
  }

  function Not(c: Value): Value {
    Object(None, None, Some(c), None, None, None)
  }

  function NotEach(items: seq<Value>): seq<Value> {
    seq(|items|, i requires 0 <= i < |items| => Not(items[i]))
  }

  /** The items are all valid; evaluation answers false for a list with one that is not. */
  predicate AllValid(items: seq<Value>, show: Value -> string) {
    forall i :: 0 <= i < |items| ==> Valid(items[i], show)
  }

  lemma AllMeans(ctx: Context, items: seq<Value>)
    ensures Evaluate(ctx, All(items)) <==> forall i :: 0 <= i < |items| ==> Evaluate(ctx, items[i])
  {
    if forall i :: 0 <= i < |items| ==> Evaluate(ctx, items[i]) {
      assert Valid(All(items), ctx.show);
    }
  }

  lemma AnyMeans(ctx: Context, items: seq<Value>)
    ensures Evaluate(ctx, Any(items)) <==>
              AllValid(items, ctx.show) && exists i :: 0 <= i < |items| && Evaluate(ctx, items[i])
  {
    ListIsValid(items, ctx.show);
    if Evaluate(ctx, Any(items)) {
      var i :| 0 <= i < |items| && EvaluateValid(ctx, items[i]);
      assert Evaluate(ctx, items[i]);
    }
    if AllValid(items, ctx.show) && exists i :: 0 <= i < |items| && Evaluate(ctx, items[i]) {
      var i :| 0 <= i < |items| && Evaluate(ctx, items[i]);
      assert EvaluateValid(ctx, items[i]);
    }
  }

  lemma NotMeans(ctx: Context, c: Value)
    ensures Evaluate(ctx, Not(c)) <==> Valid(c, ctx.show) && !Evaluate(ctx, c)
    ensures Evaluate(ctx, Not(Not(c))) <==> Evaluate(ctx, c)
  {
    NotIsValid(c, ctx.show);
    NotIsValid(Not(c), ctx.show);
  }

  /** The connectives mean what they say on valid conditions, and are false on a list with any other. */
  lemma {:induction false} ConnectivesMean(ctx: Context, items: seq<Value>, c: Value)
    ensures Evaluate(ctx, All(items)) <==> forall i :: 0 <= i < |items| ==> Evaluate(ctx, items[i])
    ensures Evaluate(ctx, Any(items)) <==>
              AllValid(items, ctx.show) && exists i :: 0 <= i < |items| && Evaluate(ctx, items[i])
    ensures Evaluate(ctx, Not(c)) <==> Valid(c, ctx.show) && !Evaluate(ctx, c)
    ensures Evaluate(ctx, Not(Not(c))) <==> Evaluate(ctx, c)
  {
    hide EvaluateValid, Valid;
    AllMeans(ctx, items);
    AnyMeans(ctx, items);
    NotMeans(ctx, c);
  }

  /** De Morgan's laws hold for every list of conditions, malformed ones included. */
  lemma {:induction false} DeMorgan(ctx: Context, items: seq<Value>)
    ensures Evaluate(ctx, Not(All(items))) <==> Evaluate(ctx, Any(NotEach(items)))
    ensures Evaluate(ctx, Not(Any(items))) <==> Evaluate(ctx, All(NotEach(items)))
  {
    hide EvaluateValid, Valid;
    ConnectivesMean(ctx, items, All(items));
    ConnectivesMean(ctx, NotEach(items), Any(items));
    forall i | 0 <= i < |items|
      ensures Evaluate(ctx, NotEach(items)[i]) <==> Valid(items[i], ctx.show) && !Evaluate(ctx, items[i])
      ensures Valid(NotEach(items)[i], ctx.show) <==> Valid(items[i], ctx.show)
    {
      ConnectivesMean(ctx, items, items[i]);
      NotIsValid(items[i], ctx.show);
    }
    ListIsValid(items, ctx.show);
    if Evaluate(ctx, Not(All(items))) {
      var i :| 0 <= i < |items| && !Evaluate(ctx, items[i]);
      assert Evaluate(ctx, NotEach(items)[i]);
    }
    if Evaluate(ctx, Any(NotEach(items))) {
      assert forall i :: 0 <= i < |items| ==> Valid(NotEach(items)[i], ctx.show);
      var i :| 0 <= i < |items| && Evaluate(ctx, NotEach(items)[i]);
      assert !Evaluate(ctx, items[i]);
    }
    if Evaluate(ctx, All(NotEach(items))) {
      assert forall i :: 0 <= i < |items| ==> Evaluate(ctx, NotEach(items)[i]);
    }
    if Evaluate(ctx, Not(Any(items))) {
      assert forall i :: 0 <= i < |items| ==> !Evaluate(ctx, items[i]);
    }
  }

  lemma NotIsValid(c: Value, show: Value -> string)
    ensures Valid(Not(c), show) <==> Valid(c, show)
  {
  }

  lemma ListIsValid(items: seq<Value>, show: Value -> string)
    ensures Valid(All(items), show) <==> AllValid(items, show)
    ensures Valid(Any(items), show) <==> AllValid(items, show)
  {
  }

  /** Only the trimmed text matters. */
  lemma OnlyTrimmedMatters(ctx: Context, a: string, b: string)
    requires Text.Trim(a) == Text.Trim(b)
    ensures EvaluateString(ctx, a) == EvaluateString(ctx, b)
  {
  }

  /** A leading `!` negates everything behind it, disjunctions and conjunctions included. */
  lemma {:induction false} NegationCoversTheRest(ctx: Context, s: string)
    ensures EvaluateString(ctx, "!" + s) == !EvaluateString(ctx, s)
  {
    MarkStays(s);
    MarkIsNoBool(Text.Trim("!" + s));
    hide Text.Trim, ParseBool, Split;
    OnlyTrimmedMatters(ctx, Text.Trim(Text.Trim("!" + s)[1..]), s);
  }

  /** Trimming leaves the mark in front; what is behind it is trimmed as if it stood alone. */
  lemma {:induction false} MarkStays(s: string)
    ensures var t := Text.Trim("!" + s);
            t != "" && t[0] == '!' && Text.Trim(Text.Trim(t[1..])) == Text.Trim(s)
  {
    hide Text.TrimLeft, Text.TrimRight;
    Text.TrimLeftConcat("", '!', s);
    Text.TrimLeftOfNothing();
    assert "" + ['!'] + s == "!" + s;
    Text.TrimRightConcat("", '!', s);
    assert "" + ['!'] + Text.TrimRight(s) == "!" + Text.TrimRight(s);
    Text.TrimEndsFirst(s);
    Text.TrimTwice(s);
  }

  lemma MarkIsNoBool(t: string)
    requires t != "" && t[0] == '!'
    ensures ParseBool(t).None?
  {
  }

  // ----- What a string means -----

  /** A string condition as it is understood. An operand is missing where nothing stands, as in `a ||` or `!`. */
  datatype Formula =
    | Missing
    | Literal(b: bool)
    | Atom(text: string)
    | Neg(operand: Formula)
    | Or(operands: seq<Formula>)
    | And(operands: seq<Formula>)

  function Parse(condition: string): Formula
    decreases |condition|
  {
    Connectives();
    Text.TrimLength(condition);
    var s := Text.Trim(condition);
    if s == "" then Missing
    else if ParseBool(s).Some? then Literal(ParseBool(s).value)
    else if s[0] == '!' then
      Text.TrimLength(s[1..]);
      Neg(Parse(Text.Trim(s[1..])))
    else
      var disjuncts := Parts(s, OR);
      if |disjuncts| > 1 then Or(seq(|disjuncts|, k requires 0 <= k < |disjuncts| => Parse(disjuncts[k])))
      else
        var conjuncts := Parts(s, AND);
        if |conjuncts| > 1 then And(seq(|conjuncts|, k requires 0 <= k < |conjuncts| => Parse(conjuncts[k])))
        else Atom(s)
  }

  /** The boolean meaning, in which a missing operand is true. */
  predicate Meaning(ctx: Context, f: Formula) {
    match f
    case Missing => true
    case Literal(b) => b
    case Atom(text) => ctx.atom(text)
    case Neg(operand) => !Meaning(ctx, operand)
    case Or(operands) => exists k :: 0 <= k < |operands| && Meaning(ctx, operands[k])
    case And(operands) => forall k :: 0 <= k < |operands| ==> Meaning(ctx, operands[k])
  }

  lemma {:induction false} PartsMean(ctx: Context, parts: seq<string>, fs: seq<Formula>)
    requires |fs| == |parts| && forall k :: 0 <= k < |parts| ==> EvaluateString(ctx, parts[k]) == Meaning(ctx, fs[k])
    ensures (exists k :: 0 <= k < |parts| && EvaluateString(ctx, parts[k])) == Meaning(ctx, Or(fs))
    ensures (forall k :: 0 <= k < |parts| ==> EvaluateString(ctx, parts[k])) == Meaning(ctx, And(fs))
  {
    hide EvaluateString;
  }

  /** Evaluation is the boolean meaning of the string. */
  lemma {:induction false} EvaluatesToMeaning(ctx: Context, condition: string)
    ensures EvaluateString(ctx, condition) == Meaning(ctx, Parse(condition))
    decreases |condition|
  {
    hide Split, ParseBool, Text.Trim, Meaning;
    Connectives();
    Text.TrimLength(condition);
    var s := Text.Trim(condition);
    if s == "" || ParseBool(s).Some? {
      LeafMeans(ctx);
    } else if s[0] == '!' {
      Text.TrimLength(s[1..]);
      EvaluatesToMeaning(ctx, Text.Trim(s[1..]));
      LeafMeans(ctx);
    } else {
      var disjuncts, conjuncts := Parts(s, OR), Parts(s, AND);
      forall k | 0 <= k < |disjuncts| ensures EvaluateString(ctx, disjuncts[k]) == Meaning(ctx, Parse(disjuncts[k])) {
        EvaluatesToMeaning(ctx, disjuncts[k]);
      }
      forall k | 0 <= k < |conjuncts| ensures EvaluateString(ctx, conjuncts[k]) == Meaning(ctx, Parse(conjuncts[k])) {
        EvaluatesToMeaning(ctx, conjuncts[k]);
      }
      PartsMean(ctx, disjuncts, seq(|disjuncts|, k requires 0 <= k < |disjuncts| => Parse(disjuncts[k])));
      PartsMean(ctx, conjuncts, seq(|conjuncts|, k requires 0 <= k < |conjuncts| => Parse(conjuncts[k])));
      LeafMeans(ctx);
    }
  }

  lemma LeafMeans(ctx: Context)
    ensures Meaning(ctx, Missing) && forall b :: Meaning(ctx, Literal(b)) == b
    ensures forall text :: Meaning(ctx, Atom(text)) == ctx.atom(text)
    ensures forall f :: Meaning(ctx, Neg(f)) == !Meaning(ctx, f)
  {
  }

  // ----- The connectives, character by character -----

  /** No occurrence of the separator outside quotes. */
  ghost predicate Whole(s: string, sep: string) {
    forall p :: !TopLevel(s, sep, p)
  }

  /** Every quote is closed, and the last character escapes nothing. */
  predicate Closed(s: string) {
    QuoteAt(s, |s|).None? && (s != "" ==> s[|s| - 1] != '\\')
  }

  lemma {:induction false} QuotePrefix(a: string, b: string, i: nat)
    requires i <= |a|
    ensures QuoteAt(a + b, i) == QuoteAt(a, i)
  {
    if i > 0 { QuotePrefix(a, b, i - 1); }
  }

  lemma {:induction false} SeparatorInPrefix(a: string, b: string, sep: string, p: int)
    requires 0 <= p && p + |sep| <= |a|
    ensures TopLevel(a + b, sep, p) <==> TopLevel(a, sep, p)
  {
    hide QuoteAt;
    QuotePrefix(a, b, p);
    assert (a + b)[p..p + |sep|] == a[p..p + |sep|];
  }

  lemma {:induction false} SeparatorInSuffix(a: string, b: string, sep: string, p: int)
    requires Closed(a) && |a| <= p
    ensures TopLevel(a + b, sep, p) <==> TopLevel(b, sep, p - |a|)
  {
    hide QuoteAt;
    var s := a + b;
    QuotePrefix(a, b, |a|);
    assert s[|a|..|s|] == b;
    if p + |sep| <= |s| {
      QuotesOfPiece(s, |a|, |s|, p - |a|);
      assert s[p..p + |sep|] == b[p - |a|..p - |a| + |sep|];
    }
  }

  lemma {:induction false} SkipTo(expr: string, sep: string, start: nat, i: nat, j: nat)
    requires IsSeparator(sep) && start <= i <= j && j + |sep| <= |expr|
    requires forall q :: i <= q < j ==> !TopLevel(expr, sep, q)
    ensures Pieces(expr, sep, start, i) == Pieces(expr, sep, start, j)
    decreases j - i
  {
    if i < j { SkipTo(expr, sep, start, i + 1, j); }
  }

  lemma {:induction false} NoMoreCuts(expr: string, sep: string, start: nat, i: nat)
    requires IsSeparator(sep) && start <= i && start <= |expr|
    requires forall q :: i <= q ==> !TopLevel(expr, sep, q)
    ensures Pieces(expr, sep, start, i) == [expr[start..]]
    decreases |expr| - i
  {
    if i + |sep| <= |expr| { NoMoreCuts(expr, sep, start, i + 1); }
  }

  /** A separator of two equal characters behind a text that does not end in that character. */
  predicate IsDouble(sep: string, c: char) {
    sep == [c, c] && !IsQuote(c) && c != '\\'
  }

  lemma {:induction false} NoCutBefore(a: string, b: string, sep: string, c: char, q: int)
    requires IsDouble(sep, c) && Whole(a, sep) && (a != "" ==> a[|a| - 1] != c) && q < |a|
    ensures !TopLevel(a + sep + b, sep, q)
  {
    hide QuoteAt;
    var s := a + sep + b;
    assert s == a + (sep + b);
    if 0 <= q && q + 2 <= |a| {
      SeparatorInPrefix(a, sep + b, sep, q);
      assert !TopLevel(a, sep, q);
    } else if 0 <= q == |a| - 1 {
      assert s[q..q + 2][0] == a[q] != c;
    }
  }

  lemma {:induction false} NoCutBehind(a: string, b: string, sep: string, c: char, q: int)
    requires IsDouble(sep, c) && Closed(a) && Whole(b, sep) && |a| + 2 <= q
    ensures !TopLevel(a + sep + b, sep, q)
  {
    hide QuoteAt;
    ClosedBehind(a, sep, c);
    SeparatorInSuffix(a + sep, b, sep, q);
    assert !TopLevel(b, sep, q - |a + sep|);
  }

  lemma ClosedBehind(a: string, sep: string, c: char)
    requires IsDouble(sep, c) && Closed(a)
    ensures Closed(a + sep)
  {
    var s := a + sep;
    QuotePrefix(a, sep, |a|);
    assert s[|a|] == c && s[|a| + 1] == c;
    assert QuoteAt(s, |a| + 1) == NextQuote(s, |a|, QuoteAt(s, |a|));
    assert QuoteAt(s, |a| + 2) == NextQuote(s, |a| + 1, QuoteAt(s, |a| + 1));
  }

  lemma {:induction false} TwoPieces(a: string, b: string, sep: string, c: char)
    requires IsDouble(sep, c) && Closed(a) && Whole(a, sep) && Whole(b, sep) && (a != "" ==> a[|a| - 1] != c)
    ensures IsSeparator(sep) && Pieces(a + sep + b, sep, 0, 0) == [a, b]
  {
    hide QuoteAt, Pieces;
    var s, at := a + sep + b, |a| + 2;
    forall q | 0 <= q < |a| ensures !TopLevel(s, sep, q) { NoCutBefore(a, b, sep, c, q); }
    forall q | at <= q ensures !TopLevel(s, sep, q) { NoCutBehind(a, b, sep, c, q); }
    SkipTo(s, sep, 0, 0, |a|);
    PiecesStep(s, sep, 0, |a|);
    assert s == a + (sep + b);
    QuotePrefix(a, sep + b, |a|);
    assert s[|a|..|a| + 2] == sep && s[0..|a|] == a && s[at..] == b;
    NoMoreCuts(s, sep, at, at);
  }

  lemma OnePiece(s: string, sep: string)
    requires IsSeparator(sep) && Whole(s, sep)
    ensures Split(s, sep) == []
  {
    NoMoreCuts(s, sep, 0, 0);
  }

  /** Leading spaces hold no quote and no separator. */
  lemma {:induction false} NoQuoteInSpaces(s: string, i: nat)
    requires i <= |s| - |Text.TrimLeft(s)|
    ensures QuoteAt(s, i).None?
  {
    if i > 0 {
      NoQuoteInSpaces(s, i - 1);
      Text.TrimLeftTakesSpaces(s, i - 1);
    }
  }

  lemma {:induction false} WithoutSpaces(s: string, sep: string)
    requires Closed(s) && Whole(s, sep)
    ensures Closed(Text.TrimLeft(s)) && Whole(Text.TrimLeft(s), sep)
    ensures Text.TrimLeft(s) != "" ==> s != "" && Text.TrimLeft(s)[|Text.TrimLeft(s)| - 1] == s[|s| - 1]
  {
    var t, n := Text.TrimLeft(s), |s| - |Text.TrimLeft(s)|;
    Text.TrimLeftShape(s);
    NoQuoteInSpaces(s, n);
    if n > 0 { Text.TrimLeftTakesSpaces(s, n - 1); }
    var spaces := s[..n];
    assert s == spaces + t;
    QuotePrefix(spaces, t, n);
    hide QuoteAt, Text.TrimLeft;
    assert s[n..|s|] == t;
    QuotesOfPiece(s, n, |s|, |t|);
    assert Closed(spaces);
    forall p ensures !TopLevel(t, sep, p) {
      if p >= 0 { SeparatorInSuffix(spaces, t, sep, n + p); }
      assert !TopLevel(s, sep, n + p);
    }
  }

  lemma WithoutSpacesBehind(s: string, sep: string)
    requires Whole(s, sep)
    ensures Whole(Text.TrimRight(s), sep)
  {
    Text.TrimRightShape(s);
    var t := Text.TrimRight(s);
    assert s == t + s[|t|..];
    forall p ensures !TopLevel(t, sep, p) {
      if 0 <= p && p + |sep| <= |t| { SeparatorInPrefix(t, s[|t|..], sep, p); }
      assert !TopLevel(s, sep, p);
    }
  }

  lemma {:induction false} TrimAround(a: string, b: string, sep: string, c: char)
    requires IsDouble(sep, c) && !Text.IsSpace(c)
    ensures Text.Trim(a + sep + b) == Text.TrimLeft(a) + sep + Text.TrimRight(b)
  {
    hide Text.TrimLeft, Text.TrimRight;
    assert a + sep + b == a + [c] + ([c] + b);
    Text.TrimLeftConcat(a, c, [c] + b);
    var t := Text.TrimLeft(a);
    assert t + [c] + ([c] + b) == t + [c] + [c] + b;
    Text.TrimRightConcat(t + [c], c, b);
    assert t + [c] + [c] + Text.TrimRight(b) == t + sep + Text.TrimRight(b);
  }

  lemma ConnectiveIsNoBool(s: string, i: nat)
    requires i < |s| && (s[i] == '|' || s[i] == '&')
    ensures ParseBool(s).None?
  {
  }

  /** The parts of a text that is cut once. */
  lemma {:induction false} TwoParts(a: string, b: string, sep: string, c: char)
    requires IsDouble(sep, c) && Closed(a) && Whole(a, sep) && Whole(b, sep) && (a != "" ==> a[|a| - 1] != c)
    ensures IsSeparator(sep)
    ensures Split(Text.TrimLeft(a) + sep + Text.TrimRight(b), sep) ==
            [Text.Trim(Text.TrimLeft(a)), Text.Trim(Text.TrimRight(b))]
  {
    var x, y := Text.TrimLeft(a), Text.TrimRight(b);
    WithoutSpaces(a, sep);
    WithoutSpacesBehind(b, sep);
    hide Pieces, QuoteAt, Text.Trim, Text.TrimLeft, Text.TrimRight, Whole, Closed;
    TwoPieces(x, y, sep, c);
    TrimAllAre([x, y]);
  }

  lemma {:induction false} SameWithoutSpaces(ctx: Context, a: string)
    ensures EvaluateString(ctx, Text.Trim(Text.TrimLeft(a))) == EvaluateString(ctx, a)
    ensures EvaluateString(ctx, Text.Trim(Text.TrimRight(a))) == EvaluateString(ctx, a)
  {
    hide EvaluateString, Text.TrimRight;
    Text.TrimTwice(Text.TrimLeft(a));
    Text.TrimLeftTwice(a);
    OnlyTrimmedMatters(ctx, Text.Trim(Text.TrimLeft(a)), a);
    Text.TrimEndsFirst(a);
    Text.TrimTwice(Text.TrimRight(a));
    OnlyTrimmedMatters(ctx, Text.Trim(Text.TrimRight(a)), a);
  }

  /** A text without connectives is true if blank, one of twelve literals, or an atom. */
  lemma {:induction false} TextMeans(ctx: Context, s: string)
    ensures var t := Text.Trim(s);
            && (t == "" ==> EvaluateString(ctx, s))
            && (t in {"1", "t", "T", "true", "TRUE", "True"} ==> EvaluateString(ctx, s))
            && (t in {"0", "f", "F", "false", "FALSE", "False"} ==> !EvaluateString(ctx, s))
            && (&& t != "" && t[0] != '!' && Whole(t, "||") && Whole(t, "&&")
                && t !in {"1", "t", "T", "true", "TRUE", "True", "0", "f", "F", "false", "FALSE", "False"} ==>
                  EvaluateString(ctx, s) == ctx.atom(t))
  {
    hide Text.Trim, Pieces, TopLevel, TrimAll;
    var t := Text.Trim(s);
    Connectives();
    NoParts(t, OR);
    NoParts(t, AND);
  }

  lemma NoParts(t: string, sep: string)
    requires IsSeparator(sep)
    ensures Whole(t, sep) ==> Split(t, sep) == []
  {
    if Whole(t, sep) { NoMoreCuts(t, sep, 0, 0); }
  }

  /** `||` outside quotes, behind a text that does not begin with `!`, is disjunction. */
  lemma {:induction false} OrMeans(ctx: Context, a: string, b: string)
    requires Closed(a) && Whole(a, "||") && Whole(b, "||") && (a != "" ==> a[|a| - 1] != '|')
    requires Text.TrimLeft(a) != "" ==> Text.TrimLeft(a)[0] != '!'
    ensures EvaluateString(ctx, a + "||" + b) == (EvaluateString(ctx, a) || EvaluateString(ctx, b))
  {
    hide Split, Text.Trim, Text.TrimLeft, Text.TrimRight, ParseBool, Closed, Whole;
    var s, x, y := Text.Trim(a + "||" + b), Text.TrimLeft(a), Text.TrimRight(b);
    TrimAround(a, b, "||", '|');
    TwoParts(a, b, "||", '|');
    assert s == x + ['|', '|'] + y && s[|x|] == '|';
    ConnectiveIsNoBool(s, |x|);
    SameWithoutSpaces(ctx, a);
    SameWithoutSpaces(ctx, b);
    EvaluatesParts(ctx, a + "||" + b, [Text.Trim(x), Text.Trim(y)]);
  }

  lemma {:induction false} EvaluatesParts(ctx: Context, condition: string, parts: seq<string>)
    requires var s := Text.Trim(condition);
             s != "" && ParseBool(s).None? && s[0] != '!' && Split(s, OR) == parts && |parts| == 2
    ensures EvaluateString(ctx, condition) == (EvaluateString(ctx, parts[0]) || EvaluateString(ctx, parts[1]))
  {
    hide Split, Text.Trim, ParseBool;
    if EvaluateString(ctx, parts[0]) || EvaluateString(ctx, parts[1]) {
    }
  }

  lemma {:induction false} EvaluatesAndParts(ctx: Context, condition: string, parts: seq<string>)
    requires var s := Text.Trim(condition);
             s != "" && ParseBool(s).None? && s[0] != '!' && Split(s, OR) == [] && Split(s, AND) == parts &&
               |parts| == 2
    ensures EvaluateString(ctx, condition) == (EvaluateString(ctx, parts[0]) && EvaluateString(ctx, parts[1]))
  {
    hide Split, Text.Trim, ParseBool;
  }

  /** Two texts around `&&` hold no `||` together if neither holds one. */
  lemma {:induction false} NoOrAcross(a: string, b: string)
    requires Closed(a) && Whole(a, "||") && Whole(b, "||")
    ensures Whole(a + "&&" + b, "||")
  {
    hide QuoteAt;
    var s := a + "&&" + b;
    assert s == a + ("&&" + b);
    ClosedBehind(a, "&&", '&');
    forall p ensures !TopLevel(s, "||", p) {
      if 0 <= p && p + 2 <= |a| {
        SeparatorInPrefix(a, "&&" + b, "||", p);
        assert !TopLevel(a, "||", p);
      } else if p >= |a| + 2 {
        SeparatorInSuffix(a + "&&", b, "||", p);
        assert !TopLevel(b, "||", p - |a + "&&"|);
      } else if 0 <= p && p + 2 <= |s| {
        assert s[|a|] == '&' && s[|a| + 1] == '&';
        assert s[p..p + 2][0] == s[p] && s[p..p + 2][1] == s[p + 1];
      }
    }
  }

  /** `&&` outside quotes, where there is no `||`, is conjunction. */
  lemma {:induction false} AndMeans(ctx: Context, a: string, b: string)
    requires Closed(a) && Whole(a, "||") && Whole(b, "||") && Whole(a, "&&") && Whole(b, "&&")
    requires a != "" ==> a[|a| - 1] != '&'
    requires Text.TrimLeft(a) != "" ==> Text.TrimLeft(a)[0] != '!'
    ensures EvaluateString(ctx, a + "&&" + b) == (EvaluateString(ctx, a) && EvaluateString(ctx, b))
  {
    hide Split, Text.Trim, Text.TrimLeft, Text.TrimRight, ParseBool, Closed, Whole;
    var s, x, y := Text.Trim(a + "&&" + b), Text.TrimLeft(a), Text.TrimRight(b);
    TrimAround(a, b, "&&", '&');
    TwoParts(a, b, "&&", '&');
    WithoutSpaces(a, "||");
    WithoutSpacesBehind(b, "||");
    NoOrAcross(x, y);
    OnePiece(s, "||");
    assert s == x + ['&', '&'] + y && s[|x|] == '&';
    ConnectiveIsNoBool(s, |x|);
    SameWithoutSpaces(ctx, a);
    SameWithoutSpaces(ctx, b);
    EvaluatesAndParts(ctx, a + "&&" + b, [Text.Trim(x), Text.Trim(y)]);
  }

  /** Precedence: conjunction binds more tightly. */
  lemma {:induction false} AndBindsTighter(ctx: Context, a: string, b: string, c: string)
    requires Closed(a) && Whole(a, "||") && (a != "" ==> a[|a| - 1] != '|')
    requires Text.TrimLeft(a) != "" ==> Text.TrimLeft(a)[0] != '!'
    requires Closed(b) && Whole(b, "||") && Whole(b, "&&") && (b != "" ==> b[|b| - 1] != '&')
    requires Text.TrimLeft(b) != "" ==> Text.TrimLeft(b)[0] != '!'
    requires Whole(c, "||") && Whole(c, "&&")
    ensures EvaluateString(ctx, a + "||" + (b + "&&" + c)) ==
            (EvaluateString(ctx, a) || (EvaluateString(ctx, b) && EvaluateString(ctx, c)))
  {
    hide EvaluateString, Whole, Closed, Text.TrimLeft;
    NoOrAcross(b, c);
    OrMeans(ctx, a, b + "&&" + c);
    AndMeans(ctx, b, c);
  }

  // ----- What a missing operand does -----

  function Operands(f: Formula): seq<Formula> {
    match f
    case Neg(operand) => [operand]
    case Or(operands) => operands
    case And(operands) => operands
    case _ => []
  }

  function WithOperand(f: Formula, i: nat, g: Formula): Formula
    requires i < |Operands(f)|
  {
    match f
    case Neg(_) => Neg(g)
    case Or(operands) => Or(operands[i := g])
    case And(operands) => And(operands[i := g])
  }

  /** The part at the end of a path of operand positions. */
  function Part(f: Formula, path: seq<nat>): Option<Formula>
    decreases |path|
  {
    if path == [] then Some(f)
    else if path[0] < |Operands(f)| then Part(Operands(f)[path[0]], path[1..])
    else None
  }

  /** `f` with `g` in place of the part at `path`. */
  function Replace(f: Formula, path: seq<nat>, g: Formula): Formula
    requires Part(f, path).Some?
    decreases |path|
  {
    if path == [] then g else WithOperand(f, path[0], Replace(Operands(f)[path[0]], path[1..], g))
  }

  /** No other operand decides: all others of a disjunction are false, all others of a conjunction true. */
  predicate Decides(ctx: Context, f: Formula, i: nat)
    requires i < |Operands(f)|
  {
    match f
    case Neg(_) => true
    case Or(operands) => forall j :: 0 <= j < |operands| && j != i ==> !Meaning(ctx, operands[j])
    case And(operands) => forall j :: 0 <= j < |operands| && j != i ==> Meaning(ctx, operands[j])
  }

  /** Every operand on the path decides. */
  predicate Exposed(ctx: Context, f: Formula, path: seq<nat>)
    requires Part(f, path).Some?
    decreases |path|
  {
    path == [] || (Decides(ctx, f, path[0]) && Exposed(ctx, Operands(f)[path[0]], path[1..]))
  }

  /** The number of negations around the part is odd. */
  predicate UnderNot(f: Formula, path: seq<nat>)
    requires Part(f, path).Some?
    decreases |path|
  {
    path != [] && UnderNot(Operands(f)[path[0]], path[1..]) != f.Neg?
  }

  lemma OneOperand(ctx: Context, f: Formula, i: nat, g: Formula)
    requires i < |Operands(f)|
    ensures Meaning(ctx, WithOperand(f, i, g)) == if Decides(ctx, f, i) then Meaning(ctx, g) != f.Neg? else f.Or?
  {
    match f
    case Neg(_) =>
    case Or(operands) =>
      var more := operands[i := g];
      assert more[i] == g && forall j :: 0 <= j < |operands| && j != i ==> more[j] == operands[j];
    case And(operands) =>
      var more := operands[i := g];
      assert more[i] == g && forall j :: 0 <= j < |operands| && j != i ==> more[j] == operands[j];
  }

  lemma SameOperand(f: Formula, i: nat)
    requires i < |Operands(f)|
    ensures WithOperand(f, i, Operands(f)[i]) == f
  {
  }

  /** An exposed part decides the whole, up to the negations around it; any other part does not matter. */
  lemma {:induction false} ReplaceMeans(ctx: Context, f: Formula, path: seq<nat>, g: Formula)
    requires Part(f, path).Some?
    ensures Meaning(ctx, Replace(f, path, g)) ==
            if Exposed(ctx, f, path) then Meaning(ctx, g) != UnderNot(f, path) else Meaning(ctx, f)
    decreases |path|
  {
    hide Meaning, Decides;
    if path != [] {
      var i := path[0];
      var inner := Replace(Operands(f)[i], path[1..], g);
      ReplaceMeans(ctx, Operands(f)[i], path[1..], g);
      OneOperand(ctx, f, i, inner);
      OneOperand(ctx, f, i, Operands(f)[i]);
      SameOperand(f, i);
    }
  }

  lemma {:induction false} ReplaceItself(f: Formula, path: seq<nat>)
    requires Part(f, path).Some?
    ensures Replace(f, path, Part(f, path).value) == f
    decreases |path|
  {
    if path != [] {
      ReplaceItself(Operands(f)[path[0]], path[1..]);
      SameOperand(f, path[0]);
    }
  }

  /**
   The string form does not fail closed. Reading a missing operand as true rather than false changes the
   answer exactly where all other operands of the disjunctions around it are false and all other operands
   of the conjunctions around it true; then the answer is true but under an odd number of negations.
   */
  lemma {:induction false} MissingOperandDecidesIff(ctx: Context, condition: string, path: seq<nat>)
    requires Part(Parse(condition), path) == Some(Missing)
    ensures EvaluateString(ctx, condition) != Meaning(ctx, Replace(Parse(condition), path, Literal(false))) <==>
              Exposed(ctx, Parse(condition), path)
    ensures Exposed(ctx, Parse(condition), path) ==> EvaluateString(ctx, condition) == !UnderNot(Parse(condition), path)
  {
    hide Meaning, Parse, EvaluateString, Exposed, UnderNot, Replace;
    var f := Parse(condition);
    EvaluatesToMeaning(ctx, condition);
    ReplaceItself(f, path);
    ReplaceMeans(ctx, f, path, Missing);
    ReplaceMeans(ctx, f, path, Literal(false));
    LeafMeans(ctx);
  }
}
