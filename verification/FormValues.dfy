/** Form normalisation against a variable schema: defaults, generated passwords, conditional fields
    and validation. JavaScript's string-to-number conversion and its regular expressions are the
    parameters `toNumber` and `regex`. */
module FormValues {
  import opened Text

  datatype Num = NaN | Infinite(negative: bool) | Finite(value: real)

  /** A JavaScript value; `Compound` is an object or array, known by the text it converts to. */
  datatype Value = Undefined | Null | Str(s: string) | Number(n: Num) | Boolean(b: bool) | Compound(text: string)

  datatype Engine = Engine(toNumber: string -> Num, regex: (string, string) -> bool)

  datatype FieldType =
    | StringField(validate: string)
    | PasswordField(validate: string, generateLength: nat)
    | NumberField(min: Option<real>, max: Option<real>)
    | BooleanField
    | ChoiceField(options: seq<string>)
    | PortField

  /** An absent `validate` or `show_when` is the empty text, which the code treats alike. */
  datatype Field = Field(name: string, kind: FieldType, default: Option<Value>, showWhen: string, required: bool)

  type Values = map<string, Value>

  datatype ValueError = Required | NotText | BadFormat | NotNumber | TooSmall | TooLarge | NotInteger | BadPort
                      | NotBoolean | NotAnOption

  // One value ----------------------------------------------------------------------------------------

  predicate Blank(v: Value) { v == Undefined || v == Null || v == Str("") }

  /** `Number(value)`. */
  function ToNumber(eng: Engine, v: Value): Num
  {
    match v
    case Undefined => NaN
    case Null => Finite(0.0)
    case Str(s) => eng.toNumber(s)
    case Number(n) => n
    case Boolean(b) => Finite(if b then 1.0 else 0.0)
    case Compound(text) => eng.toNumber(text)
  }

  predicate IsInteger(n: Num) { n.Finite? && n.value.Floor as real == n.value }

  function ValidateText(eng: Engine, pattern: string, v: Value): Option<ValueError>
  {
    if !v.Str? then Some(NotText)
    else if pattern != "" && !eng.regex(pattern, v.s) then Some(BadFormat)
    else None
  }

  function ValidateValue(eng: Engine, f: Field, v: Value): Option<ValueError>
  {
    if Blank(v) then (if f.required then Some(Required) else None)
    else match f.kind
      case StringField(pattern) => ValidateText(eng, pattern, v)
      case PasswordField(pattern, _) => ValidateText(eng, pattern, v)
      case NumberField(min, max) =>
        var n := ToNumber(eng, v);
        if !n.Finite? then Some(NotNumber)
        else if min.Some? && n.value < min.value then Some(TooSmall)
        else if max.Some? && n.value > max.value then Some(TooLarge)
        else None
      case PortField =>
        var n := ToNumber(eng, v);
        if !IsInteger(n) then Some(NotInteger)
        else if n.value < 1.0 || n.value > 65535.0 then Some(BadPort)
        else None
      case BooleanField => if v.Boolean? then None else Some(NotBoolean)
      case ChoiceField(options) => if v.Str? && v.s in options then None else Some(NotAnOption)
  }

  // show_when ----------------------------------------------------------------------------------------

  predicate IsWordStart(c: char) { 'a' <= c <= 'z' || 'A' <= c <= 'Z' || c == '_' }

  predicate IsWord(c: char) { IsWordStart(c) || IsDigit(c) }

  predicate IsLineEnd(c: char) { c == '\n' || c == '\r' || c as int == 0x2028 || c as int == 0x2029 }

  function WordPrefix(s: string): (w: string)
    ensures w <= s
  {
    if s != "" && IsWord(s[0]) then [s[0]] + WordPrefix(s[1..]) else ""
  }

  /** The right-hand side `(.+?)` between optional blanks: the trimmed text, or one blank when there
      is nothing else. */
  function RightSide(rest: string): Option<string>
  {
    var t := Trim(rest);
    if t != "" then (if exists i :: 0 <= i < |t| && IsLineEnd(t[i]) then None else Some(t))
    else LastBlank(rest)
  }

  function LastBlank(s: string): Option<string>
  {
    if s == "" then None
    else if IsLineEnd(s[|s| - 1]) then LastBlank(s[..|s| - 1])
    else Some([s[|s| - 1]])
  }

  datatype Condition = Condition(name: string, negated: bool, rhs: string)

  function ParseCondition(expr: string): Option<Condition>
  {
    var s := TrimStart(expr);
    if s == "" || !IsWordStart(s[0]) then None
    else
      var name := WordPrefix(s);
      var t := TrimStart(s[|name|..]);
      if |t| < 2 || (t[..2] != "==" && t[..2] != "!=") then None
      else match RightSide(t[2..])
        case None => None
        case Some(rhs) => Some(Condition(name, t[..2] == "!=", rhs))
  }

  predicate AllDigits(s: string) { s != "" && forall i :: 0 <= i < |s| ==> IsDigit(s[i]) }

  /** `/^-?\d+(?:\.\d+)?$/`. */
  predicate LooksNumeric(s: string)
  {
    var body := if s != "" && s[0] == '-' then s[1..] else s;
    var dot := IndexOf(body, '.');
    if dot == -1 then AllDigits(body) else AllDigits(body[..dot]) && AllDigits(body[dot + 1..])
  }

  predicate Quoted(s: string, q: char) { s != "" && s[0] == q && s[|s| - 1] == q }

  function RhsValue(eng: Engine, rhs: string): Value
  {
    if rhs == "true" then Boolean(true)
    else if rhs == "false" then Boolean(false)
    else if LooksNumeric(rhs) then Number(eng.toNumber(rhs))
    else if Quoted(rhs, '"') || Quoted(rhs, '\'') then Str(if |rhs| < 2 then "" else rhs[1..|rhs| - 1])
    else Str(rhs)
  }

  predicate NumEq(a: Num, b: Num) { !a.NaN? && a == b }

  /** `==` between a variable and the value of a right-hand side. */
  predicate LooseEq(eng: Engine, a: Value, b: Value)
  {
    match (a, b)
    case (Undefined, _) => b.Undefined? || b.Null?
    case (Null, _) => b.Undefined? || b.Null?
    case (Str(x), Str(y)) => x == y
    case (Compound(x), Str(y)) => x == y
    case (_, _) => NumEq(ToNumber(eng, a), ToNumber(eng, b))
  }

  function Lookup(values: Values, name: string): Value { if name in values then values[name] else Undefined }

  predicate EvalShowWhen(eng: Engine, expr: string, values: Values)
  {
    match ParseCondition(expr)
    case None => true
    case Some(c) =>
      var equal := LooseEq(eng, Lookup(values, c.name), RhsValue(eng, c.rhs));
      if c.negated then !equal else equal
  }

  predicate Hidden(eng: Engine, f: Field, values: Values)
  {
    f.showWhen != "" && !EvalShowWhen(eng, f.showWhen, values)
  }

  // Normalisation --------------------------------------------------------------------------------------

  datatype Outcome = Outcome(ok: bool, errors: map<string, ValueError>, values: Values)

  function RawValue(f: Field, submitted: Values, generated: string -> string): Value
  {
    if f.name in submitted then submitted[f.name]
    else if f.default.Some? && f.default.value != Undefined then f.default.value
    else if f.kind.PasswordField? then Str(generated(f.name))
    else Undefined
  }

  /** The values after the first pass over the first `n` fields. */
  function Raw(schema: seq<Field>, submitted: Values, generated: string -> string, n: nat): Values
    requires n <= |schema|
  {
    if n == 0 then map[]
    else Raw(schema, submitted, generated, n - 1)[schema[n - 1].name := RawValue(schema[n - 1], submitted, generated)]
  }

  /** The values after the second pass over the first `n` fields. */
  function Shown(eng: Engine, schema: seq<Field>, raw: Values, n: nat): Values
    requires n <= |schema|
  {
    if n == 0 then raw
    else
      var before := Shown(eng, schema, raw, n - 1);
      if Hidden(eng, schema[n - 1], before) then before - {schema[n - 1].name} else before
  }

  function Errors(eng: Engine, schema: seq<Field>, raw: Values, n: nat): map<string, ValueError>
    requires n <= |schema|
  {
    if n == 0 then map[]
    else
      var errors := Errors(eng, schema, raw, n - 1);
      var before := Shown(eng, schema, raw, n - 1);
      var f := schema[n - 1];
      if Hidden(eng, f, before) then errors
      else match ValidateValue(eng, f, Lookup(before, f.name))
        case None => errors
        case Some(e) => errors[f.name := e]
  }

  function Normalised(eng: Engine, schema: seq<Field>, submitted: Values, generated: string -> string): Outcome
  {
    var raw := Raw(schema, submitted, generated, |schema|);
    var errors := Errors(eng, schema, raw, |schema|);
    Outcome(errors == map[], errors, Shown(eng, schema, raw, |schema|))
  }

  /** `validateAndNormalise`: the two passes. */
  method ValidateAndNormalise(eng: Engine, schema: seq<Field>, submitted: Values, generated: string -> string)
    returns (r: Outcome)
    ensures r == Normalised(eng, schema, submitted, generated)
  {
    hide Hidden, ValidateValue;
    var values: Values := map[];
    for i := 0 to |schema|
      invariant values == Raw(schema, submitted, generated, i)
    {
      var f := schema[i];
      if f.name in submitted {
        values := values[f.name := submitted[f.name]];
      } else if f.default.Some? && f.default.value != Undefined {
        values := values[f.name := f.default.value];
      } else if f.kind.PasswordField? {
        values := values[f.name := Str(generated(f.name))];
      } else {
        values := values[f.name := Undefined];
      }
    }
    ghost var raw := values;
    var errors: map<string, ValueError> := map[];
    for i := 0 to |schema|
      invariant values == Shown(eng, schema, raw, i) && errors == Errors(eng, schema, raw, i)
    {
      var f := schema[i];
      if Hidden(eng, f, values) {
        values := values - {f.name};
      } else {
        var err := ValidateValue(eng, f, Lookup(values, f.name));
        if err.Some? {
          errors := errors[f.name := err.value];
        }
      }
    }
    r := Outcome(errors == map[], errors, values);
  }

  ghost predicate DistinctNames(schema: seq<Field>)
  {
    forall i, j :: 0 <= i < j < |schema| ==> schema[i].name != schema[j].name
  }

  /** The names of the first `n` fields. */
  ghost function Names(schema: seq<Field>, n: nat): set<string>
    requires n <= |schema|
  {
    set k | 0 <= k < n :: schema[k].name
  }

  lemma NamesStep(schema: seq<Field>, n: nat)
    requires 0 < n <= |schema|
    ensures Names(schema, n) == Names(schema, n - 1) + {schema[n - 1].name}
  {
    assert schema[n - 1].name in Names(schema, n);
  }

  lemma {:induction false} RawMeaning(schema: seq<Field>, submitted: Values, generated: string -> string, n: nat)
    requires n <= |schema| && DistinctNames(schema)
    ensures Raw(schema, submitted, generated, n).Keys == Names(schema, n)
    ensures var raw := Raw(schema, submitted, generated, n);
            forall k :: 0 <= k < n ==>
              schema[k].name in raw && raw[schema[k].name] == RawValue(schema[k], submitted, generated)
    decreases n
  {
    hide Names, RawValue;
    if n > 0 {
      RawMeaning(schema, submitted, generated, n - 1);
      NamesStep(schema, n);
    } else {
      NoNames(schema);
    }
  }

  lemma NoNames(schema: seq<Field>)
    ensures Names(schema, 0) == {}
  {}

  /** The second pass only removes, and only fields it has already come to. */
  lemma {:induction false} ShownMeaning(eng: Engine, schema: seq<Field>, raw: Values, n: nat)
    requires n <= |schema| && DistinctNames(schema)
    ensures var v := Shown(eng, schema, raw, n);
            v.Keys <= raw.Keys
            && (forall x :: x in v ==> v[x] == raw[x])
            && forall k :: n <= k < |schema| && schema[k].name in raw ==> schema[k].name in v
    decreases n
  {
    hide Hidden;
    if n > 0 {
      ShownMeaning(eng, schema, raw, n - 1);
    }
  }

  /** Field `k` is decided when the pass comes to it. */
  lemma {:induction false} ShownDecides(eng: Engine, schema: seq<Field>, raw: Values, k: nat, n: nat)
    requires k < n <= |schema| && DistinctNames(schema) && schema[k].name in raw
    ensures schema[k].name in Shown(eng, schema, raw, n) <==> !Hidden(eng, schema[k], Shown(eng, schema, raw, k))
    decreases n
  {
    hide Hidden;
    if n == k + 1 {
      ShownMeaning(eng, schema, raw, k);
    } else {
      ShownDecides(eng, schema, raw, k, n - 1);
    }
  }

  lemma {:induction false} ErrorsMeaning(eng: Engine, schema: seq<Field>, raw: Values, n: nat)
    requires n <= |schema| && DistinctNames(schema)
    requires forall k :: 0 <= k < |schema| ==> schema[k].name in raw
    ensures Errors(eng, schema, raw, n).Keys <= Names(schema, n)
    ensures forall k :: 0 <= k < n ==>
              var f, errors := schema[k], Errors(eng, schema, raw, n);
              var err := ValidateValue(eng, f, raw[f.name]);
              (f.name in errors <==> !Hidden(eng, f, Shown(eng, schema, raw, k)) && err.Some?)
              && (f.name in errors ==> err == Some(errors[f.name]))
    decreases n
  {
    hide Hidden, ValidateValue, Shown, Names;
    if n > 0 {
      ErrorsMeaning(eng, schema, raw, n - 1);
      ShownMeaning(eng, schema, raw, n - 1);
      NamesStep(schema, n);
      NameIsNew(schema, n - 1);
    }
  }

  lemma NameIsNew(schema: seq<Field>, n: nat)
    requires n < |schema| && DistinctNames(schema)
    ensures schema[n].name !in Names(schema, n)
  {}

  // What normalisation guarantees ------------------------------------------------------------------------

  /** For any schema: only schema fields survive, a field has an error exactly when it is visible and
      its value fails validation, and on success every kept value passes it. */
  lemma KeptValuesAreValid(eng: Engine, schema: seq<Field>, submitted: Values, generated: string -> string)
    requires DistinctNames(schema)
    ensures var r := Normalised(eng, schema, submitted, generated);
            r.values.Keys + r.errors.Keys <= Names(schema, |schema|)
            && (forall k :: 0 <= k < |schema| ==>
                  (schema[k].name in r.errors <==>
                     schema[k].name in r.values && ValidateValue(eng, schema[k], r.values[schema[k].name]).Some?))
            && (r.ok ==> forall k :: 0 <= k < |schema| && schema[k].name in r.values ==>
                           ValidateValue(eng, schema[k], r.values[schema[k].name]) == None)
  {
    hide Hidden, ValidateValue, Shown, Errors, Raw, Names;
    var n := |schema|;
    var raw := Raw(schema, submitted, generated, n);
    RawMeaning(schema, submitted, generated, n);
    ShownMeaning(eng, schema, raw, n);
    ErrorsMeaning(eng, schema, raw, n);
    forall k | 0 <= k < n
      ensures schema[k].name in Shown(eng, schema, raw, n) <==> !Hidden(eng, schema[k], Shown(eng, schema, raw, k))
    {
      ShownDecides(eng, schema, raw, k, n);
    }
  }

  /** Field `k` has a condition, and it reads field `j`, its own or a later one, which has a condition
      of its own. Such a read depends on what the pass will do to `j` later. */
  predicate ReadsAhead(schema: seq<Field>, k: nat, j: nat)
    requires k < |schema| && j < |schema|
  {
    k <= j && Conditional(schema[k]) && Conditional(schema[j]) && ReadName(schema[k]) == schema[j].name
  }

  /** Whether the field can be hidden at all: it has a condition, and it parses. */
  predicate Conditional(f: Field) { f.showWhen != "" && ParseCondition(f.showWhen).Some? }

  function ReadName(f: Field): string
    requires Conditional(f)
  {
    ParseCondition(f.showWhen).value.name
  }

  /** Whether the field is hidden when the variable its condition reads has this value. */
  predicate HiddenOn(eng: Engine, f: Field, v: Value)
    requires Conditional(f)
  {
    Hidden(eng, f, map[ReadName(f) := v])
  }

  lemma HiddenReadsOne(eng: Engine, f: Field, values: Values)
    ensures Conditional(f) ==> (Hidden(eng, f, values) <==> HiddenOn(eng, f, Lookup(values, ReadName(f))))
    ensures !Conditional(f) ==> !Hidden(eng, f, values)
  {
    hide ParseCondition, LooseEq, RhsValue;
  }

  /** The same answers for the fields before `n`. */
  ghost predicate Agree(schema: seq<Field>, a: Values, b: Values, n: nat)
    requires n <= |schema|
  {
    forall k :: 0 <= k < n ==> Lookup(a, schema[k].name) == Lookup(b, schema[k].name)
                               && (schema[k].name in a <==> schema[k].name in b)
  }

  /** Decisions about field `k` agree when the values agree on earlier fields, and on every later or own
      field its condition reads. */
  lemma HiddenAgrees(eng: Engine, schema: seq<Field>, a: Values, b: Values, k: nat)
    requires k < |schema| && Agree(schema, a, b, k)
    requires a.Keys + b.Keys <= Names(schema, |schema|)
    requires forall j :: k <= j < |schema| && Conditional(schema[k]) && ReadName(schema[k]) == schema[j].name ==>
               (HiddenOn(eng, schema[k], Lookup(a, schema[j].name)) <==> HiddenOn(eng, schema[k], Lookup(b, schema[j].name)))
    ensures Hidden(eng, schema[k], a) <==> Hidden(eng, schema[k], b)
  {
    hide Hidden, HiddenOn, Conditional, ReadName;
    HiddenReadsOne(eng, schema[k], a);
    HiddenReadsOne(eng, schema[k], b);
    if Conditional(schema[k]) {
      var x := ReadName(schema[k]);
      if x in Names(schema, |schema|) {
        var j :| 0 <= j < |schema| && schema[j].name == x;
        assert j < k ==> Lookup(a, schema[j].name) == Lookup(b, schema[j].name);
      } else {
        assert x !in a && x !in b;
      }
    }
  }

  lemma AgreeOneMore(schema: seq<Field>, a: Values, b: Values, n: nat, hidden: bool)
    requires n < |schema| && DistinctNames(schema) && Agree(schema, a, b, n)
    requires schema[n].name in a && schema[n].name in b && (!hidden ==> a[schema[n].name] == b[schema[n].name])
    ensures var x := schema[n].name;
            Agree(schema, if hidden then a - {x} else a, if hidden then b - {x} else b, n + 1)
  {}

  /** Reading the raw value of `b` instead of `a` changes no decision that reads ahead. */
  predicate AheadAgrees(eng: Engine, schema: seq<Field>, a: Values, b: Values)
  {
    forall k, j :: 0 <= k < |schema| && 0 <= j < |schema| && ReadsAhead(schema, k, j) ==>
      (HiddenOn(eng, schema[k], Lookup(a, schema[j].name)) <==> HiddenOn(eng, schema[k], Lookup(b, schema[j].name)))
  }

  /** Both first passes know every field and nothing else. */
  ghost predicate Complete(schema: seq<Field>, raw: Values) { raw.Keys == Names(schema, |schema|) }

  /** The second run's raw values are the first run's for every field the first run shows. */
  predicate KeepsShown(eng: Engine, schema: seq<Field>, a: Values, b: Values)
  {
    forall k :: 0 <= k < |schema| && schema[k].name in Shown(eng, schema, a, |schema|) ==>
      Lookup(a, schema[k].name) == Lookup(b, schema[k].name)
  }

  lemma NameKnown(schema: seq<Field>, raw: Values, k: nat)
    requires Complete(schema, raw) && k < |schema|
    ensures schema[k].name in raw
  {
    assert schema[k].name in Names(schema, |schema|);
  }

  /** A field without a condition is shown in the end. */
  lemma PlainIsShown(eng: Engine, schema: seq<Field>, raw: Values, j: nat)
    requires j < |schema| && DistinctNames(schema) && Complete(schema, raw) && !Conditional(schema[j])
    ensures schema[j].name in Shown(eng, schema, raw, |schema|)
  {
    hide Hidden, Conditional, Shown, Names;
    NameKnown(schema, raw, j);
    ShownDecides(eng, schema, raw, j, |schema|);
    HiddenReadsOne(eng, schema[j], Shown(eng, schema, raw, j));
  }

  /** At field `n` of the pass a field from `n` on still has its raw value. */
  lemma StillRaw(eng: Engine, schema: seq<Field>, raw: Values, n: nat, j: nat)
    requires n <= j < |schema| && DistinctNames(schema) && Complete(schema, raw)
    ensures Lookup(Shown(eng, schema, raw, n), schema[j].name) == Lookup(raw, schema[j].name)
  {
    hide Hidden, Shown, Names;
    NameKnown(schema, raw, j);
    ShownMeaning(eng, schema, raw, n);
  }

  /** The two runs decide field `n` alike when they have decided all earlier ones alike. */
  lemma DecidesAlike(eng: Engine, schema: seq<Field>, a: Values, b: Values, n: nat)
    requires n < |schema| && DistinctNames(schema) && Complete(schema, a) && Complete(schema, b)
    requires KeepsShown(eng, schema, a, b)
    requires Agree(schema, Shown(eng, schema, a, n), Shown(eng, schema, b, n), n)
    requires forall j :: 0 <= j < |schema| && ReadsAhead(schema, n, j) ==>
               (HiddenOn(eng, schema[n], Lookup(a, schema[j].name)) <==> HiddenOn(eng, schema[n], Lookup(b, schema[j].name)))
    ensures Hidden(eng, schema[n], Shown(eng, schema, a, n)) <==> Hidden(eng, schema[n], Shown(eng, schema, b, n))
  {
    hide Hidden, HiddenOn, Conditional, ReadName, Shown, Names, Agree;
    var sa, sb := Shown(eng, schema, a, n), Shown(eng, schema, b, n);
    ShownMeaning(eng, schema, a, n);
    ShownMeaning(eng, schema, b, n);
    forall j | n <= j < |schema| && Conditional(schema[n]) && ReadName(schema[n]) == schema[j].name
      ensures HiddenOn(eng, schema[n], Lookup(sa, schema[j].name)) <==> HiddenOn(eng, schema[n], Lookup(sb, schema[j].name))
    {
      StillRaw(eng, schema, a, n, j);
      StillRaw(eng, schema, b, n, j);
      if Conditional(schema[j]) {
        assert ReadsAhead(schema, n, j);
      } else {
        PlainIsShown(eng, schema, a, j);
      }
    }
    HiddenAgrees(eng, schema, sa, sb, n);
  }

  /** A decision taken alike keeps the two runs' values in agreement. */
  lemma StaysAlike(eng: Engine, schema: seq<Field>, a: Values, b: Values, n: nat)
    requires n < |schema| && DistinctNames(schema) && Complete(schema, a) && Complete(schema, b)
    requires KeepsShown(eng, schema, a, b)
    requires Agree(schema, Shown(eng, schema, a, n), Shown(eng, schema, b, n), n)
    requires Hidden(eng, schema[n], Shown(eng, schema, a, n)) <==> Hidden(eng, schema[n], Shown(eng, schema, b, n))
    ensures Agree(schema, Shown(eng, schema, a, n + 1), Shown(eng, schema, b, n + 1), n + 1)
  {
    hide Hidden, Names, Agree, Complete;
    var sa, sb := Shown(eng, schema, a, n), Shown(eng, schema, b, n);
    NameKnown(schema, a, n);
    NameKnown(schema, b, n);
    ShownMeaning(eng, schema, a, n);
    ShownMeaning(eng, schema, b, n);
    ShownDecides(eng, schema, a, n, |schema|);
    AgreeOneMore(schema, sa, sb, n, Hidden(eng, schema[n], sa));
  }

  /** Two first passes that agree on everything the first run shows take the same decisions, if no
      read ahead tells them apart. */
  lemma {:induction false} SameDecisions(eng: Engine, schema: seq<Field>, a: Values, b: Values, n: nat)
    requires n <= |schema| && DistinctNames(schema) && Complete(schema, a) && Complete(schema, b)
    requires KeepsShown(eng, schema, a, b) && AheadAgrees(eng, schema, a, b)
    ensures Agree(schema, Shown(eng, schema, a, n), Shown(eng, schema, b, n), n)
    ensures forall k :: 0 <= k < n ==>
              (Hidden(eng, schema[k], Shown(eng, schema, a, k)) <==> Hidden(eng, schema[k], Shown(eng, schema, b, k)))
    decreases n
  {
    hide Hidden, HiddenOn, Conditional, ReadName, Names, Agree, Complete, Lookup, KeepsShown, Shown, DistinctNames;
    if n == 0 {
      ShownAtStart(eng, schema, a);
      ShownAtStart(eng, schema, b);
      AgreeOnNothing(schema, a, b);
    } else {
      SameDecisions(eng, schema, a, b, n - 1);
      DecidesAlike(eng, schema, a, b, n - 1);
      StaysAlike(eng, schema, a, b, n - 1);
    }
  }

  lemma ShownAtStart(eng: Engine, schema: seq<Field>, raw: Values)
    ensures Shown(eng, schema, raw, 0) == raw
  {}

  lemma AgreeOnNothing(schema: seq<Field>, a: Values, b: Values)
    ensures Agree(schema, a, b, 0)
  {}

  /** Feeding a run's values back: what was shown is submitted, what was hidden falls back. */
  lemma FedBack(eng: Engine, schema: seq<Field>, submitted: Values, generated: string -> string, again: string -> string)
    requires DistinctNames(schema)
    ensures var a := Raw(schema, submitted, generated, |schema|);
            var kept := Shown(eng, schema, a, |schema|);
            var b := Raw(schema, kept, again, |schema|);
            && Complete(schema, a) && Complete(schema, b) && KeepsShown(eng, schema, a, b) && kept.Keys <= a.Keys
            && (forall k :: 0 <= k < |schema| ==> Lookup(a, schema[k].name) == RawValue(schema[k], submitted, generated))
            && forall k :: 0 <= k < |schema| && schema[k].name !in kept ==>
                 Lookup(b, schema[k].name) == RawValue(schema[k], map[], again)
  {
    hide Hidden, Raw, Shown, Names;
    var n := |schema|;
    var a := Raw(schema, submitted, generated, n);
    RawMeaning(schema, submitted, generated, n);
    ShownMeaning(eng, schema, a, n);
    RawMeaning(schema, Shown(eng, schema, a, n), again, n);
  }

  /** The condition, on one run: for every condition that reads ahead a field this run dropped, the
      value the field was dropped with and the one it falls back to give the same decision. */
  predicate DroppedReadsAgree(eng: Engine, schema: seq<Field>, submitted: Values, generated: string -> string, again: string -> string)
  {
    var r := Normalised(eng, schema, submitted, generated);
    forall k, j :: 0 <= k < |schema| && 0 <= j < |schema| && ReadsAhead(schema, k, j) && schema[j].name !in r.values ==>
      (HiddenOn(eng, schema[k], RawValue(schema[j], submitted, generated))
       <==> HiddenOn(eng, schema[k], RawValue(schema[j], map[], again)))
  }

  lemma AheadAgreesIff(eng: Engine, schema: seq<Field>, submitted: Values, generated: string -> string, again: string -> string)
    requires DistinctNames(schema)
    ensures var a := Raw(schema, submitted, generated, |schema|);
            var b := Raw(schema, Shown(eng, schema, a, |schema|), again, |schema|);
            AheadAgrees(eng, schema, a, b) <==> DroppedReadsAgree(eng, schema, submitted, generated, again)
  {
    hide Hidden, HiddenOn, Conditional, ReadName, Raw, Shown, RawValue, Errors, Complete, Lookup;
    FedBack(eng, schema, submitted, generated, again);
    var a := Raw(schema, submitted, generated, |schema|);
    var b := Raw(schema, Shown(eng, schema, a, |schema|), again, |schema|);
    var r := Normalised(eng, schema, submitted, generated);
    assert r.values == Shown(eng, schema, a, |schema|);
    forall k, j | 0 <= k < |schema| && 0 <= j < |schema| && ReadsAhead(schema, k, j)
      ensures HiddenOn(eng, schema[k], Lookup(a, schema[j].name)) == HiddenOn(eng, schema[k], RawValue(schema[j], submitted, generated))
      ensures schema[j].name !in r.values ==>
                HiddenOn(eng, schema[k], Lookup(b, schema[j].name)) == HiddenOn(eng, schema[k], RawValue(schema[j], map[], again))
      ensures schema[j].name in r.values ==> Lookup(a, schema[j].name) == Lookup(b, schema[j].name)
    {}
  }

  /** If both runs end with the same values, they have taken the same decisions. */
  lemma SameEndSameDecisions(eng: Engine, schema: seq<Field>, a: Values, b: Values)
    requires DistinctNames(schema) && Complete(schema, a) && Complete(schema, b)
    requires Shown(eng, schema, a, |schema|) == Shown(eng, schema, b, |schema|)
    ensures AheadAgrees(eng, schema, a, b)
  {
    hide Hidden, HiddenOn, Conditional, ReadName, Shown, Names, Complete;
    forall k, j | 0 <= k < |schema| && 0 <= j < |schema| && ReadsAhead(schema, k, j)
      ensures HiddenOn(eng, schema[k], Lookup(a, schema[j].name)) <==> HiddenOn(eng, schema[k], Lookup(b, schema[j].name))
    {
      NameKnown(schema, a, k);
      NameKnown(schema, b, k);
      ShownDecides(eng, schema, a, k, |schema|);
      ShownDecides(eng, schema, b, k, |schema|);
      HiddenReadsOne(eng, schema[k], Shown(eng, schema, a, k));
      HiddenReadsOne(eng, schema[k], Shown(eng, schema, b, k));
      StillRaw(eng, schema, a, k, j);
      StillRaw(eng, schema, b, k, j);
    }
  }

  /** The exact condition, for any schema and submission: normalising again gives the same outcome if
      and only if no condition that reads ahead is decided differently by the value a dropped field
      falls back to. */
  lemma FixedPointExactly(eng: Engine, schema: seq<Field>, submitted: Values,
                          generated: string -> string, again: string -> string)
    requires DistinctNames(schema)
    ensures var r := Normalised(eng, schema, submitted, generated);
            Normalised(eng, schema, r.values, again) == r <==> DroppedReadsAgree(eng, schema, submitted, generated, again)
  {
    hide Hidden, ValidateValue, Shown, Errors, Raw, Names, Agree, AheadAgrees, KeepsShown, DroppedReadsAgree;
    var n := |schema|;
    var r := Normalised(eng, schema, submitted, generated);
    var a, b := Raw(schema, submitted, generated, n), Raw(schema, r.values, again, n);
    FedBack(eng, schema, submitted, generated, again);
    AheadAgreesIff(eng, schema, submitted, generated, again);
    if AheadAgrees(eng, schema, a, b) {
      ShownMeaning(eng, schema, a, n);
      ShownMeaning(eng, schema, b, n);
      SameDecisions(eng, schema, a, b, n);
      AgreeingMapsAreEqual(schema, Shown(eng, schema, a, n), Shown(eng, schema, b, n));
      SameErrors(eng, schema, a, b);
    } else if Normalised(eng, schema, r.values, again) == r {
      SameEndSameDecisions(eng, schema, a, b);
      assert false;
    }
  }

  /** So when every condition reads an earlier field, a name outside the schema or a field without a
      condition, normalising is a fixed point for every submission, whatever passwords the second run
      would generate. */
  lemma NormalisedIsFixedPoint(eng: Engine, schema: seq<Field>, submitted: Values,
                               generated: string -> string, again: string -> string)
    requires DistinctNames(schema)
    requires forall k, j :: 0 <= k < |schema| && 0 <= j < |schema| ==> !ReadsAhead(schema, k, j)
    ensures var r := Normalised(eng, schema, submitted, generated);
            Normalised(eng, schema, r.values, again) == r
  {
    hide ReadsAhead, Normalised, HiddenOn;
    FixedPointExactly(eng, schema, submitted, generated, again);
  }

  lemma AgreeingMapsAreEqual(schema: seq<Field>, a: Values, b: Values)
    requires Agree(schema, a, b, |schema|) && a.Keys + b.Keys <= Names(schema, |schema|)
    ensures a == b
  {
    forall x
      ensures (x in a <==> x in b) && (x in a && x in b ==> a[x] == b[x])
    {
      if x in a || x in b {
        assert x in Names(schema, |schema|);
        var k :| 0 <= k < |schema| && schema[k].name == x;
      }
    }
  }

  lemma SameErrors(eng: Engine, schema: seq<Field>, a: Values, b: Values)
    requires DistinctNames(schema) && Complete(schema, a) && Complete(schema, b) && KeepsShown(eng, schema, a, b)
    requires forall k :: 0 <= k < |schema| ==>
               (Hidden(eng, schema[k], Shown(eng, schema, a, k)) <==> Hidden(eng, schema[k], Shown(eng, schema, b, k)))
    ensures Errors(eng, schema, a, |schema|) == Errors(eng, schema, b, |schema|)
  {
    hide Hidden, ValidateValue, Shown, Errors;
    var n := |schema|;
    forall k | 0 <= k < n
      ensures schema[k].name in a && schema[k].name in b
    {
      NameKnown(schema, a, k);
      NameKnown(schema, b, k);
    }
    ErrorsMeaning(eng, schema, a, n);
    ErrorsMeaning(eng, schema, b, n);
    var ea, eb := Errors(eng, schema, a, n), Errors(eng, schema, b, n);
    forall x
      ensures (x in ea <==> x in eb) && (x in ea && x in eb ==> ea[x] == eb[x])
    {
      if x in ea || x in eb {
        assert x in Names(schema, |schema|);
        var k :| 0 <= k < n && schema[k].name == x;
        ShownDecides(eng, schema, a, k, n);
      }
    }
  }

  // Conditions, written and read back ----------------------------------------------------------------------

  /** A letter or underscore, then letters, digits and underscores. */
  predicate IsName(x: string)
  {
    x != "" && !('0' <= x[0] <= '9')
    && forall i :: 0 <= i < |x| ==> 'a' <= x[i] <= 'z' || 'A' <= x[i] <= 'Z' || x[i] == '_' || '0' <= x[i] <= '9'
  }

  lemma {:induction false} WordPrefixStops(x: string, rest: string)
    requires forall i :: 0 <= i < |x| ==> IsWord(x[i])
    requires rest != "" && !IsWord(rest[0])
    ensures WordPrefix(x + rest) == x
    decreases |x|
  {
    if x == "" {
      assert x + rest == rest;
    } else {
      WordPrefixStops(x[1..], rest);
      assert (x + rest)[1..] == x[1..] + rest;
      assert x == [x[0]] + x[1..];
    }
  }

  /** Every documented condition is read as written: a name, an operator, and a right-hand side. */
  lemma ConditionParses(c: Condition)
    requires IsName(c.name) && Trimmed(c.rhs) && forall i :: 0 <= i < |c.rhs| ==> !IsLineEnd(c.rhs[i])
    ensures ParseCondition(c.name + (if c.negated then " != " else " == ") + c.rhs) == Some(c)
  {
    hide Trim;
    var op := if c.negated then "!=" else "==";
    var expr := c.name + (if c.negated then " != " else " == ") + c.rhs;
    assert expr == c.name + (" " + op + " " + c.rhs);
    assert expr[0] == c.name[0] && !IsSpace(expr[0]);
    assert TrimStart(expr) == expr;
    WordPrefixStops(c.name, " " + op + " " + c.rhs);
    var after := expr[|c.name|..];
    assert after == " " + op + " " + c.rhs;
    var t := op + " " + c.rhs;
    assert after[1..] == t && TrimStart(t) == t;
    assert TrimStart(after) == t;
    assert t[..2] == op && t[2..] == " " + c.rhs;
    TrimBlankPrefix(c.rhs);
    TrimIsFixedPoint(c.rhs);
  }

  function TextField(name: string, default: Option<Value>, showWhen: string): Field
  {
    Field(name, StringField(""), default, showWhen, false)
  }

  /** The ways to write a text on the right-hand side: bare, or between quotes of either kind. */
  predicate Writes(rhs: string, text: string)
  {
    || rhs == "\"" + text + "\"" || rhs == "'" + text + "'"
    || (rhs == text && rhs != "true" && rhs != "false" && !LooksNumeric(rhs)
        && (rhs == "" || rhs[0] != rhs[|rhs| - 1] || (rhs[0] != '"' && rhs[0] != '\'')))
  }

  lemma WrittenText(eng: Engine, rhs: string, text: string)
    requires Writes(rhs, text)
    ensures RhsValue(eng, rhs) == Str(text)
  {
    if rhs == "\"" + text + "\"" || rhs == "'" + text + "'" {
      assert rhs[0] == '"' || rhs[0] == '\'';
      assert rhs[|rhs| - 1] == rhs[0] && rhs[1..|rhs| - 1] == text;
      var dot := IndexOf(rhs, '.');
      assert !IsDigit(rhs[0]) && rhs[0] != '-' && dot != 0;
      assert dot > 0 ==> rhs[..dot][0] == rhs[0];
    }
  }

  /** A text condition hides its field exactly when the variable is not that text, or is, if negated;
      a number or truth value is compared with the number the text reads as. */
  lemma HiddenUnlessEqual(eng: Engine, f: Field, name: string, negated: bool, rhs: string, text: string, values: Values)
    requires IsName(name) && Trimmed(rhs) && Writes(rhs, text) && f.showWhen == name + (if negated then " != " else " == ") + rhs
    requires forall i :: 0 <= i < |rhs| ==> !IsLineEnd(rhs[i])
    ensures var v := Lookup(values, name);
            var equal := v == Str(text) || v == Compound(text)
                         || ((v.Number? || v.Boolean?) && NumEq(ToNumber(eng, v), eng.toNumber(text)));
            Hidden(eng, f, values) <==> (equal <==> negated)
    ensures ParseCondition(f.showWhen) == Some(Condition(name, negated, rhs))
  {
    hide ParseCondition, RhsValue, Writes;
    ConditionParses(Condition(name, negated, rhs));
    WrittenText(eng, rhs, text);
  }

  /** Likewise for `true` and `false`: the variable is that truth value, or reads as 1 or as 0; nothing
      equals an absent variable. */
  lemma HiddenUnlessTruth(eng: Engine, f: Field, name: string, negated: bool, b: bool, values: Values)
    requires IsName(name) && f.showWhen == name + (if negated then " != " else " == ") + (if b then "true" else "false")
    ensures var v := Lookup(values, name);
            var equal := v == Boolean(b) || Reads(eng, v, if b then 1.0 else 0.0);
            Hidden(eng, f, values) <==> (equal <==> negated)
  {
    hide ParseCondition, LooksNumeric;
    ConditionParses(Condition(name, negated, if b then "true" else "false"));
  }

  /** The value converts to this number: a number itself, a text or a compound value the engine reads
      as it, or a truth value as 1 or 0. */
  predicate Reads(eng: Engine, v: Value, x: real)
  {
    || v == Number(Finite(x))
    || (v.Str? && eng.toNumber(v.s) == Finite(x)) || (v.Compound? && eng.toNumber(v.text) == Finite(x))
    || (v == Boolean(true) && x == 1.0) || (v == Boolean(false) && x == 0.0)
  }

  /** Every way to write a number on the right-hand side: digits, perhaps a sign before them, perhaps a
      point and more digits after them. */
  predicate WritesNumber(rhs: string, negative: bool, whole: string, fraction: string)
  {
    AllDigits(whole) && (fraction == "" || AllDigits(fraction))
    && rhs == if negative then "-" + Unsigned(whole, fraction) else Unsigned(whole, fraction)
  }

  function Unsigned(whole: string, fraction: string): string
  {
    if fraction == "" then whole else whole + "." + fraction
  }

  predicate NumberChar(c: char) { '0' <= c <= '9' || c == '.' || c == '-' }

  lemma UnsignedText(whole: string, fraction: string)
    requires AllDigits(whole) && (fraction == "" || AllDigits(fraction))
    ensures var body, dot := Unsigned(whole, fraction), IndexOf(Unsigned(whole, fraction), '.');
            && body != "" && '0' <= body[0] <= '9' && body[|body| - 1] != '-' && !IsSpace(body[|body| - 1])
            && (forall i :: 0 <= i < |body| ==> NumberChar(body[i]))
            && if dot == -1 then AllDigits(body) else AllDigits(body[..dot]) && AllDigits(body[dot + 1..])
  {
    var body := Unsigned(whole, fraction);
    var dot := IndexOf(body, '.');
    if fraction != "" {
      assert forall i :: 0 <= i < |whole| ==> body[i] == whole[i];
      assert body[|whole|] == '.';
      assert body[..|whole|] == whole && body[|whole| + 1..] == fraction;
      assert forall i :: |whole| < i < |body| ==> body[i] == fraction[i - |whole| - 1];
    }
  }

  lemma WrittenNumber(rhs: string, negative: bool, whole: string, fraction: string)
    requires WritesNumber(rhs, negative, whole, fraction)
    ensures LooksNumeric(rhs) && Trimmed(rhs) && forall i :: 0 <= i < |rhs| ==> NumberChar(rhs[i])
  {
    UnsignedText(whole, fraction);
    var body := Unsigned(whole, fraction);
    hide Unsigned, IndexOf, AllDigits;
    if negative {
      assert rhs[0] == '-' && rhs[1..] == body;
      assert forall i :: 0 < i < |rhs| ==> rhs[i] == body[i - 1];
    } else {
      assert rhs == body;
    }
  }

  lemma UnsignedParts(body: string) returns (whole: string, fraction: string)
    requires var dot := IndexOf(body, '.');
             if dot == -1 then AllDigits(body) else AllDigits(body[..dot]) && AllDigits(body[dot + 1..])
    ensures body == Unsigned(whole, fraction) && AllDigits(whole) && (fraction == "" || AllDigits(fraction))
  {
    var dot := IndexOf(body, '.');
    hide IndexOf;
    if dot == -1 {
      return body, "";
    }
    whole, fraction := body[..dot], body[dot + 1..];
    assert body == whole + [body[dot]] + fraction;
  }

  lemma NumericParts(rhs: string) returns (negative: bool, whole: string, fraction: string)
    requires LooksNumeric(rhs)
    ensures WritesNumber(rhs, negative, whole, fraction)
  {
    negative := rhs != "" && rhs[0] == '-';
    var body := if negative then rhs[1..] else rhs;
    hide IndexOf, AllDigits, Unsigned;
    whole, fraction := UnsignedParts(body);
    assert negative ==> rhs == "-" + body;
  }

  /** Nothing else counts as a number there. */
  lemma NumericExactly(rhs: string)
    ensures LooksNumeric(rhs) <==> exists negative, whole, fraction :: WritesNumber(rhs, negative, whole, fraction)
  {
    hide LooksNumeric, WritesNumber;
    if LooksNumeric(rhs) {
      var negative, whole, fraction := NumericParts(rhs);
      assert WritesNumber(rhs, negative, whole, fraction);
    }
    if negative, whole, fraction :| WritesNumber(rhs, negative, whole, fraction) {
      WrittenNumber(rhs, negative, whole, fraction);
    }
  }

  /** Position `i` is the last one that ends no line. */
  predicate LastAt(s: string, i: int)
  {
    0 <= i < |s| && !IsLineEnd(s[i]) && forall k :: i < k < |s| ==> IsLineEnd(s[k])
  }

  /** A right-hand side of nothing but blanks is the last of them that ends no line; with none there is
      no condition. */
  lemma BlankRightSide(s: string)
    requires AllBlank(s)
    ensures RightSide(s) == None ==> forall k :: 0 <= k < |s| ==> IsLineEnd(s[k])
    ensures RightSide(s).Some? ==> exists i :: LastAt(s, i) && RightSide(s) == Some([s[i]])
  {
    BlanksTrimAway(s);
    LastBlankMeaning(s);
    hide LastBlank, Trim, IsLineEnd;
  }

  lemma {:induction false} LastBlankMeaning(s: string)
    ensures LastBlank(s) == None ==> forall k :: 0 <= k < |s| ==> IsLineEnd(s[k])
    ensures LastBlank(s).Some? ==> exists i :: LastAt(s, i) && LastBlank(s) == Some([s[i]])
    decreases |s|
  {
    hide IsLineEnd;
    if s != "" {
      var n := |s| - 1;
      if IsLineEnd(s[n]) {
        LastBlankMeaning(s[..n]);
        if LastBlank(s[..n]).Some? {
          var i :| LastAt(s[..n], i) && LastBlank(s[..n]) == Some([s[..n][i]]);
          assert LastAt(s, i);
        }
      } else {
        assert LastAt(s, n);
      }
    }
  }

  lemma {:induction false} BlanksTrimAway(s: string)
    requires AllBlank(s)
    ensures TrimStart(s) == "" && Trim(s) == ""
    decreases |s|
  {
    if s != "" {
      BlanksTrimAway(s[1..]);
    }
  }

  lemma NumberRhs(eng: Engine, rhs: string, negative: bool, whole: string, fraction: string)
    requires WritesNumber(rhs, negative, whole, fraction)
    ensures RhsValue(eng, rhs) == Number(eng.toNumber(rhs))
  {
    WrittenNumber(rhs, negative, whole, fraction);
    hide WritesNumber, LooksNumeric, Quoted;
    assert NumberChar(rhs[0]);
  }

  lemma NumberConditionParses(name: string, negated: bool, rhs: string, minus: bool, whole: string, fraction: string)
    requires IsName(name) && WritesNumber(rhs, minus, whole, fraction)
    ensures ParseCondition(name + (if negated then " != " else " == ") + rhs) == Some(Condition(name, negated, rhs))
  {
    WrittenNumber(rhs, minus, whole, fraction);
    hide ParseCondition, LooksNumeric, WritesNumber, Trimmed;
    assert forall i :: 0 <= i < |rhs| ==> !IsLineEnd(rhs[i]);
    ConditionParses(Condition(name, negated, rhs));
  }

  /** Likewise for a number: the variable reads as the same number. */
  lemma HiddenUnlessNumber(eng: Engine, f: Field, name: string, negated: bool, rhs: string, minus: bool, whole: string,
                           fraction: string, x: real, values: Values)
    requires IsName(name) && WritesNumber(rhs, minus, whole, fraction) && eng.toNumber(rhs) == Finite(x)
    requires f.showWhen == name + (if negated then " != " else " == ") + rhs
    ensures Hidden(eng, f, values) <==> (Reads(eng, Lookup(values, name), x) <==> negated)
  {
    NumberConditionParses(name, negated, rhs, minus, whole, fraction);
    NumberRhs(eng, rhs, minus, whole, fraction);
    EqualsNumber(eng, Lookup(values, name), x);
    assert f.showWhen != "";
    hide ParseCondition, RhsValue, WritesNumber, IsName, LooseEq, Reads, Lookup;
  }

  lemma EqualsNumber(eng: Engine, v: Value, x: real)
    ensures LooseEq(eng, v, Number(Finite(x))) <==> Reads(eng, v, x)
  {}

  /** A condition that does not parse hides nothing. */
  lemma UnreadableConditionShows(eng: Engine, f: Field, values: Values)
    requires f.showWhen == "" || ParseCondition(f.showWhen) == None
    ensures !Hidden(eng, f, values)
  {}

  /** Which fields a run keeps, told by what it returns: one without a condition always, and one whose
      condition compares an earlier field with a text exactly when that field was kept with that text,
      or with a number or truth value equal to the number the text reads as; the reverse, if negated. */
  lemma KeptByFields(eng: Engine, schema: seq<Field>, submitted: Values, generated: string -> string, k: nat)
    requires DistinctNames(schema) && k < |schema|
    ensures schema[k].showWhen == "" ==> schema[k].name in Normalised(eng, schema, submitted, generated).values
    ensures forall j, negated, rhs, text ::
              0 <= j < k && ReadsEarlier(schema, k, j, negated, rhs, text) ==>
                var kept := Normalised(eng, schema, submitted, generated).values;
                (schema[k].name in kept <==> (negated <==> !EqualsText(eng, kept, schema[j].name, text)))
  {
    hide Hidden, Shown, Errors, Raw, Names, ReadsEarlier, EqualsText, ParseCondition;
    var n := |schema|;
    var raw := Raw(schema, submitted, generated, n);
    RawMeaning(schema, submitted, generated, n);
    ShownDecides(eng, schema, raw, k, n);
    var kept, before := Shown(eng, schema, raw, n), Shown(eng, schema, raw, k);
    if schema[k].showWhen == "" {
      UnreadableConditionShows(eng, schema[k], before);
    }
    forall j, negated, rhs, text | 0 <= j < k && ReadsEarlier(schema, k, j, negated, rhs, text)
      ensures schema[k].name in kept <==> (negated <==> !EqualsText(eng, kept, schema[j].name, text))
    {
      ShownDecides(eng, schema, raw, j, k);
      ShownDecides(eng, schema, raw, j, n);
      ShownMeaning(eng, schema, raw, k);
      ShownMeaning(eng, schema, raw, n);
      HiddenByEarlier(eng, schema, k, j, negated, rhs, text, before);
      SameText(eng, before, kept, schema[j].name, text);
    }
  }

  /** Field `k` is conditional on earlier field `j` being, or not being, this text. */
  predicate ReadsEarlier(schema: seq<Field>, k: nat, j: nat, negated: bool, rhs: string, text: string)
    requires j < k < |schema|
  {
    && IsName(schema[j].name) && Trimmed(rhs) && Writes(rhs, text) && (forall i :: 0 <= i < |rhs| ==> !IsLineEnd(rhs[i]))
    && schema[k].showWhen == schema[j].name + (if negated then " != " else " == ") + rhs
  }

  predicate EqualsText(eng: Engine, kept: Values, name: string, text: string)
  {
    name in kept
    && match kept[name]
       case Str(s) => s == text
       case Compound(s) => s == text
       case Number(x) => x != NaN && eng.toNumber(text) == x
       case Boolean(b) => eng.toNumber(text) == Finite(if b then 1.0 else 0.0)
       case _ => false
  }

  lemma SameText(eng: Engine, a: Values, b: Values, name: string, text: string)
    requires (name in a <==> name in b) && (name in a && name in b ==> a[name] == b[name])
    ensures EqualsText(eng, a, name, text) <==> EqualsText(eng, b, name, text)
  {}

  lemma HiddenByEarlier(eng: Engine, schema: seq<Field>, k: nat, j: nat, negated: bool, rhs: string, text: string, values: Values)
    requires j < k < |schema| && ReadsEarlier(schema, k, j, negated, rhs, text)
    ensures Hidden(eng, schema[k], values) <==> (negated <==> EqualsText(eng, values, schema[j].name, text))
  {
    hide Hidden, ParseCondition, Writes, IsName;
    HiddenUnlessEqual(eng, schema[k], schema[j].name, negated, rhs, text, values);
  }

  /** Where a kept value comes from: what was submitted, else the field's default, else a password
      generated for it, else nothing. */
  lemma KeptValueComesFrom(eng: Engine, schema: seq<Field>, submitted: Values, generated: string -> string, k: nat)
    requires DistinctNames(schema) && k < |schema| && schema[k].name in Normalised(eng, schema, submitted, generated).values
    ensures var f, v := schema[k], Normalised(eng, schema, submitted, generated).values[schema[k].name];
            && (f.name in submitted ==> v == submitted[f.name])
            && (f.name !in submitted && f.default.Some? && f.default.value != Undefined ==> v == f.default.value)
            && (f.name !in submitted && (f.default == None || f.default.value == Undefined) ==>
                  v == match f.kind case PasswordField(_, _) => Str(generated(f.name)) case _ => Undefined)
  {
    hide Shown, Errors, Raw, Names;
    var raw := Raw(schema, submitted, generated, |schema|);
    RawMeaning(schema, submitted, generated, |schema|);
    ShownMeaning(eng, schema, raw, |schema|);
  }

  predicate ReadsWhole(eng: Engine, v: Value, k: int) { Reads(eng, v, k as real) }

  predicate Within(x: real, min: Option<real>, max: Option<real>)
  {
    (min.Some? ==> min.value <= x) && (max.Some? ==> x <= max.value)
  }

  /** Exactly which values each type of field accepts. */
  lemma AcceptsExactly(eng: Engine, f: Field, v: Value)
    ensures v == Undefined || v == Null || v == Str("") ==>
              ValidateValue(eng, f, v) == if f.required then Some(Required) else None
    ensures v != Undefined && v != Null && v != Str("") ==>
              (ValidateValue(eng, f, v) == None <==>
                 match f.kind
                 case StringField(pattern) => v.Str? && (pattern == "" || eng.regex(pattern, v.s))
                 case PasswordField(pattern, _) => v.Str? && (pattern == "" || eng.regex(pattern, v.s))
                 case NumberField(min, max) => exists x: real :: Reads(eng, v, x) && Within(x, min, max)
                 case BooleanField => v == Boolean(true) || v == Boolean(false)
                 case ChoiceField(options) => v.Str? && exists i :: 0 <= i < |options| && options[i] == v.s
                 case PortField => exists k: int :: 1 <= k <= 65535 && ReadsWhole(eng, v, k))
  {
    var n := ToNumber(eng, v);
    if f.kind.NumberField? && v != Undefined && v != Null {
      forall x: real
        ensures Reads(eng, v, x) <==> n == Finite(x)
      {}
      if n.Finite? {
        assert Reads(eng, v, n.value);
      }
    }
    if f.kind.PortField? && !Blank(v) {
      PortAcceptsExactly(eng, f, v);
      forall k: int
        ensures ReadsWhole(eng, v, k) <==> n == Whole(k)
      {}
    }
  }

  /** And what a rejected one is told. */
  lemma RejectsExactly(eng: Engine, f: Field, v: Value)
    requires v != Undefined && v != Null && v != Str("") && ValidateValue(eng, f, v).Some?
    ensures var e := ValidateValue(eng, f, v).value;
            match f.kind
            case StringField(_) => e == if v.Str? then BadFormat else NotText
            case PasswordField(_, _) => e == if v.Str? then BadFormat else NotText
            case NumberField(min, max) =>
              && (e == NotNumber <==> forall x: real :: !Reads(eng, v, x))
              && (e == TooSmall <==> min.Some? && exists x: real :: Reads(eng, v, x) && x < min.value)
              && (e == NotNumber || e == TooSmall || e == TooLarge)
            case BooleanField => e == NotBoolean
            case ChoiceField(_) => e == NotAnOption
            case PortField => e == NotInteger || (e == BadPort && exists k: int :: !(1 <= k <= 65535) && ReadsWhole(eng, v, k))
  {
    var n := ToNumber(eng, v);
    forall x: real
      ensures Reads(eng, v, x) <==> n == Finite(x)
    {}
    if n.Finite? {
      assert Reads(eng, v, n.value);
    }
    if f.kind.PortField? && IsInteger(n) {
      var k := n.value.Floor;
      assert ReadsWhole(eng, v, k);
      assert 1 <= k <= 65535 <==> 1.0 <= n.value <= 65535.0;
    }
  }

  /** Reading ahead can break the fixed point: here the second run shows a field that the first one
      hid, because the later field it reads was dropped and has fallen back to its default. */
  lemma LookingAheadCanBreak(eng: Engine, generated: string -> string)
    ensures var schema := [TextField("A", None, "B == on"), TextField("B", Some(Str("on")), "A == zzz")];
            var r := Normalised(eng, schema, map["B" := Str("off")], generated);
            DistinctNames(schema) && ReadsAhead(schema, 0, 1)
            && r.ok && r.values == map[]
            && Normalised(eng, schema, r.values, generated).values == map["A" := Undefined]
  {
    hide ParseCondition, ValidateValue, Hidden, Shown, Errors, Raw, LooksNumeric;
    var schema := [TextField("A", None, "B == on"), TextField("B", Some(Str("on")), "A == zzz")];
    assert "B" + " == " + "on" == "B == on" && "A" + " == " + "zzz" == "A == zzz";
    assert schema[0].name == "A" && schema[1].name == "B";
    PlainWord("on");
    PlainWord("zzz");
    var raw: Values := map["A" := Undefined, "B" := Str("off")];
    RawOfTwo(schema, map["B" := Str("off")], generated);
    HiddenUnlessEqual(eng, schema[0], "B", false, "on", "on", raw);
    var first := raw - {"A"};
    HiddenUnlessEqual(eng, schema[1], "A", false, "zzz", "zzz", first);
    ShownOfTwo(eng, schema, raw);
    assert first - {"B"} == map[];
    var raw': Values := map["A" := Undefined, "B" := Str("on")];
    RawOfTwo(schema, map[], generated);
    HiddenUnlessEqual(eng, schema[0], "B", false, "on", "on", raw');
    HiddenUnlessEqual(eng, schema[1], "A", false, "zzz", "zzz", raw');
    ShownOfTwo(eng, schema, raw');
    assert raw' - {"B"} == map["A" := Undefined];
  }

  lemma PlainWord(w: string)
    requires w == "on" || w == "zzz"
    ensures Writes(w, w)
  {
    var dot := IndexOf(w, '.');
    assert !IsDigit(w[0]) && w[0] != '-' && dot == -1;
  }

  lemma RawOfTwo(schema: seq<Field>, submitted: Values, generated: string -> string)
    requires |schema| == 2
    ensures Raw(schema, submitted, generated, 2)
            == map[schema[0].name := RawValue(schema[0], submitted, generated)]
                  [schema[1].name := RawValue(schema[1], submitted, generated)]
  {
    hide RawValue;
    assert Raw(schema, submitted, generated, 0) == map[];
    assert Raw(schema, submitted, generated, 1) == map[schema[0].name := RawValue(schema[0], submitted, generated)];
  }

  lemma ShownOfTwo(eng: Engine, schema: seq<Field>, raw: Values)
    requires |schema| == 2
    ensures var first := if Hidden(eng, schema[0], raw) then raw - {schema[0].name} else raw;
            Shown(eng, schema, raw, 2) == (if Hidden(eng, schema[1], first) then first - {schema[1].name} else first)
            && (Hidden(eng, schema[0], raw) && Hidden(eng, schema[1], first) ==> Errors(eng, schema, raw, 2) == map[])
  {
    hide Hidden, ValidateValue;
    assert Shown(eng, schema, raw, 0) == raw;
    var first := if Hidden(eng, schema[0], raw) then raw - {schema[0].name} else raw;
    assert Shown(eng, schema, raw, 1) == first;
    assert Errors(eng, schema, raw, 0) == map[];
    assert Hidden(eng, schema[0], raw) ==> Errors(eng, schema, raw, 1) == map[];
  }

  function Whole(k: int): Num { Finite(k as real) }

  /** A port field accepts exactly the whole numbers from 1 to 65535, and blanks when optional. */
  lemma PortAcceptsExactly(eng: Engine, f: Field, v: Value)
    requires f.kind.PortField?
    ensures ValidateValue(eng, f, v) == None <==>
              if Blank(v) then !f.required
              else exists k: int :: 1 <= k <= 65535 && ToNumber(eng, v) == Whole(k)
  {
    var n := ToNumber(eng, v);
    if !Blank(v) && IsInteger(n) {
      var k := n.value.Floor;
      assert n == Whole(k);
      assert 1 <= k <= 65535 <==> 1.0 <= n.value <= 65535.0;
    }
    if k: int :| !Blank(v) && 1 <= k <= 65535 && n == Whole(k) {
      assert (k as real).Floor == k;
    }
  }

  const ALPHABET := "ABCDEFGHJKLMNPQRSTUVWXYZabcdefghijkmnpqrstuvwxyz23456789-_"

  /** `generatePassword`: one alphabet character per random byte. */
  method GeneratePassword(bytes: seq<nat>) returns (out: string)
    ensures |out| == |bytes|
    ensures forall i :: 0 <= i < |out| ==> out[i] == ALPHABET[bytes[i] % |ALPHABET|] && out[i] in ALPHABET
  {
    out := "";
    for i := 0 to |bytes|
      invariant |out| == i
      invariant forall k :: 0 <= k < i ==> out[k] == ALPHABET[bytes[k] % |ALPHABET|]
    {
      out := out + [ALPHABET[bytes[i] % |ALPHABET|]];
    }
  }
}
