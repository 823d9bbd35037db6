/** The five-field cron grammar: parsing a field into the set of numbers it admits. */
module CronSyntax {
  import opened Text

  datatype FieldError = InvalidStep | InvalidRange | InvalidValue | OutOfRange

  datatype CronError = FieldCount(found: nat) | BadField(field: nat, reason: FieldError)

  datatype ParsedCron = ParsedCron(
    minute: set<int>, hour: set<int>, dayOfMonth: set<int>, month: set<int>, dayOfWeek: set<int>)

  /** What one comma-separated piece denotes: lo, lo + step, ... up to hi. */
  datatype Range = Range(lo: int, hi: int, step: int)

  /** The `k`-th value of a stepped range, ignoring its upper end. */
  function Nth(r: Range, k: nat): int { r.lo + k * r.step }

  ghost predicate InRange(v: int, r: Range) { exists k: nat :: v == Nth(r, k) && v <= r.hi }

  /** The allowed bounds of field `i`, in the order of the expression. */
  function FieldMin(i: nat): int { if i == 2 || i == 3 then 1 else 0 }

  function FieldMax(i: nat): int
  {
    if i == 0 then 59 else if i == 1 then 23 else if i == 2 then 31 else if i == 3 then 12 else 6
  }

  /** The least integer that rounds to Infinity as a 64-bit float: 2^1024 - 2^970. */
  const OVERFLOW := 0xFFFFFFFFFFFFFC00000000000000000000000000000000000000000000000000000000000000000000000000000000000000000000000000000000000000000000000000000000000000000000000000000000000000000000000000000000000000000000000000000000000000000000000000000000000000000000000000

  /** A numeral as `parseInt` and `Number.isInteger` take it: one too large for a float is refused.
      Rounding of large numerals below that is not visible, since they lie far outside every field. */
  function Numeral(s: string): Option<int>
  {
    match ParseInt(s)
    case Some(n) => if 0 - OVERFLOW < n < OVERFLOW then Some(n) else None
    case None => None
  }

  function StepOf(piece: string): Result<int, FieldError>
  {
    var slash := IndexOf(piece, '/');
    if slash == -1 then Ok(1)
    else match Numeral(piece[slash + 1..])
      case None => Err(InvalidStep)
      case Some(n) => if n <= 0 then Err(InvalidStep) else Ok(n)
  }

  function BodyOf(piece: string): string
  {
    var slash := IndexOf(piece, '/');
    if slash == -1 then piece else piece[..slash]
  }

  function BoundsOf(body: string, min: int, max: int): Result<(int, int), FieldError>
  {
    if body == "*" || body == "" then Ok((min, max))
    else if Contains(body, '-') then
      var parts := Split(body, '-');
      SplitHasTwo(body, '-');
      match (Numeral(parts[0]), Numeral(parts[1]))
      case (Some(a), Some(b)) => Ok((a, b))
      case _ => Err(InvalidRange)
    else match Numeral(body)
      case None => Err(InvalidValue)
      case Some(v) => Ok((v, v))
  }

  lemma SplitHasTwo(s: string, sep: char)
    requires Contains(s, sep)
    ensures |Split(s, sep)| >= 2
  {
    JoinSplit(s, sep);
  }

  function PieceRange(piece: string, min: int, max: int): (r: Result<Range, FieldError>)
    ensures r.Ok? ==> min <= r.value.lo <= r.value.hi <= max && r.value.step > 0
  {
    match StepOf(piece)
    case Err(e) => Err(e)
    case Ok(step) =>
      match BoundsOf(BodyOf(piece), min, max)
      case Err(e) => Err(e)
      case Ok((lo, hi)) =>
        if lo < min || hi > max || lo > hi then Err(OutOfRange) else Ok(Range(lo, hi, step))
  }

  function RangeSet(r: Range): set<int>
    requires r.step > 0
    decreases r.hi - r.lo
  {
    if r.lo > r.hi then {} else {r.lo} + RangeSet(r.(lo := r.lo + r.step))
  }

  lemma {:induction false} RangeSetMeaning(r: Range, v: int)
    requires r.step > 0
    ensures v in RangeSet(r) <==> InRange(v, r)
    decreases r.hi - r.lo
  {
    var next := r.(lo := r.lo + r.step);
    if r.lo <= r.hi {
      RangeSetMeaning(next, v);
      assert Nth(r, 0) == r.lo;
      if k: nat :| v == Nth(next, k) && v <= r.hi {
        assert Nth(next, k) == Nth(r, k + 1);
      }
      if k: nat :| v == Nth(r, k) && v <= r.hi {
        if k > 0 {
          assert Nth(r, k) == Nth(next, k - 1);
        }
      }
    } else if InRange(v, r) {
      InRangeBounds(v, r);
    }
  }

  /** The union of the pieces' ranges, or the first error from the left. */
  function Pieces(pieces: seq<string>, min: int, max: int): Result<set<int>, FieldError>
  {
    if pieces == [] then Ok({})
    else match PieceRange(pieces[0], min, max)
      case Err(e) => Err(e)
      case Ok(r) =>
        match Pieces(pieces[1..], min, max)
        case Err(e) => Err(e)
        case Ok(rest) => Ok(RangeSet(r) + rest)
  }

  function Field(token: string, min: int, max: int): Result<set<int>, FieldError>
  {
    Pieces(Split(token, ','), min, max)
  }

  lemma {:induction false} PiecesConcat(a: seq<string>, b: seq<string>, min: int, max: int)
    ensures Pieces(a + b, min, max) ==
            match Pieces(a, min, max)
            case Err(e) => Err(e)
            case Ok(s) => match Pieces(b, min, max) case Err(e) => Err(e) case Ok(t) => Ok(s + t)
    decreases |a|
  {
    if a == [] {
      assert a + b == b;
      assert forall t: set<int> :: {} + t == t;
    } else {
      assert (a + b)[1..] == a[1..] + b;
      PiecesConcat(a[1..], b, min, max);
      if Pieces(a, min, max).Ok? && Pieces(b, min, max).Ok? {
        var first, rest := RangeSet(PieceRange(a[0], min, max).value), Pieces(a[1..], min, max).value;
        assert (first + rest) + Pieces(b, min, max).value == first + (rest + Pieces(b, min, max).value);
      }
    }
  }

  lemma OnePiece(piece: string, min: int, max: int)
    ensures Pieces([piece], min, max) ==
            match PieceRange(piece, min, max) case Err(e) => Err(e) case Ok(r) => Ok(RangeSet(r))
  {
    assert Pieces([piece][1..], min, max) == Ok({});
    assert forall s: set<int> :: s + {} == s;
  }

  lemma PiecesExtend(pieces: seq<string>, i: nat, min: int, max: int)
    requires i < |pieces| && Pieces(pieces[..i], min, max).Ok?
    ensures PieceRange(pieces[i], min, max).Ok? ==>
              Pieces(pieces[..i + 1], min, max)
              == Ok(Pieces(pieces[..i], min, max).value + RangeSet(PieceRange(pieces[i], min, max).value))
  {
    OnePiece(pieces[i], min, max);
    PiecesConcat(pieces[..i], [pieces[i]], min, max);
    assert pieces[..i + 1] == pieces[..i] + [pieces[i]];
  }

  lemma PiecesFail(pieces: seq<string>, i: nat, min: int, max: int)
    requires i < |pieces| && Pieces(pieces[..i], min, max).Ok?
    requires PieceRange(pieces[i], min, max).Err?
    ensures Pieces(pieces, min, max) == Err(PieceRange(pieces[i], min, max).error)
  {
    PiecesConcat(pieces[..i], pieces[i..], min, max);
    assert pieces[..i] + pieces[i..] == pieces;
  }

  /** `parseField`: the loops over pieces and stepped values. */
  method ParseField(token: string, min: int, max: int) returns (r: Result<set<int>, FieldError>)
    ensures r == Field(token, min, max)
  {
    var pieces := Split(token, ',');
    var out: set<int> := {};
    for i := 0 to |pieces|
      invariant Pieces(pieces[..i], min, max) == Ok(out)
    {
      var piece := PieceRange(pieces[i], min, max);
      PiecesExtend(pieces, i, min, max);
      if piece.Err? {
        PiecesFail(pieces, i, min, max);
        return Err(piece.error);
      }
      out := AddSteps(out, piece.value);
    }
    assert pieces[..|pieces|] == pieces;
    r := Ok(out);
  }

  method AddSteps(before: set<int>, range: Range) returns (out: set<int>)
    requires range.step > 0
    ensures out == before + RangeSet(range)
  {
    out := before;
    var v := range.lo;
    while v <= range.hi
      invariant out + RangeSet(range.(lo := v)) == before + RangeSet(range)
      decreases range.hi - v
    {
      out := out + {v};
      v := v + range.step;
    }
  }

  ghost predicate AllParse(pieces: seq<string>, min: int, max: int)
  {
    forall i :: 0 <= i < |pieces| ==> PieceRange(pieces[i], min, max).Ok?
  }

  ghost predicate Admitted(v: int, pieces: seq<string>, min: int, max: int)
    requires AllParse(pieces, min, max)
  {
    exists i :: 0 <= i < |pieces| && InRange(v, PieceRange(pieces[i], min, max).value)
  }

  lemma {:induction false} PiecesAccept(pieces: seq<string>, min: int, max: int)
    ensures Pieces(pieces, min, max).Ok? <==> AllParse(pieces, min, max)
    decreases |pieces|
  {
    if pieces != [] {
      PiecesAccept(pieces[1..], min, max);
      assert forall i :: 0 < i < |pieces| ==> pieces[i] == pieces[1..][i - 1];
      assert forall i :: 0 <= i < |pieces| - 1 ==> pieces[1..][i] == pieces[i + 1];
    }
  }

  lemma {:induction false} PiecesUnion(pieces: seq<string>, min: int, max: int, v: int)
    requires AllParse(pieces, min, max)
    ensures Pieces(pieces, min, max).Ok?
    ensures v in Pieces(pieces, min, max).value <==> Admitted(v, pieces, min, max)
    decreases |pieces|
  {
    if pieces != [] {
      var rest := pieces[1..];
      assert AllParse(rest, min, max) by {
        assert forall i :: 0 <= i < |rest| ==> rest[i] == pieces[i + 1];
      }
      PiecesUnion(rest, min, max, v);
      RangeSetMeaning(PieceRange(pieces[0], min, max).value, v);
      if Admitted(v, rest, min, max) {
        var i :| 0 <= i < |rest| && InRange(v, PieceRange(rest[i], min, max).value);
        assert InRange(v, PieceRange(pieces[i + 1], min, max).value);
      }
      if Admitted(v, pieces, min, max) {
        var i :| 0 <= i < |pieces| && InRange(v, PieceRange(pieces[i], min, max).value);
        if i > 0 {
          assert InRange(v, PieceRange(rest[i - 1], min, max).value);
        }
      }
    }
  }

  lemma InRangeBounds(v: int, r: Range)
    requires r.step > 0 && InRange(v, r)
    ensures r.lo <= v <= r.hi
  {
    var k: nat :| v == Nth(r, k) && v <= r.hi;
    assert k * r.step >= 0;
  }

  /** A field accepts exactly when every piece does, and then denotes exactly the union of the
      pieces' stepped ranges, which is non-empty and within the field's bounds. */
  lemma FieldMeaning(token: string, min: int, max: int)
    ensures Field(token, min, max).Ok? <==> AllParse(Split(token, ','), min, max)
    ensures Field(token, min, max).Ok? ==> Field(token, min, max).value != {}
    ensures Field(token, min, max).Ok? ==> forall v :: v in Field(token, min, max).value ==> min <= v <= max
    ensures Field(token, min, max).Ok? ==>
              forall v :: v in Field(token, min, max).value <==> Admitted(v, Split(token, ','), min, max)
  {
    var pieces := Split(token, ',');
    PiecesAccept(pieces, min, max);
    if AllParse(pieces, min, max) {
      forall v
        ensures v in Field(token, min, max).value <==> Admitted(v, pieces, min, max)
        ensures Admitted(v, pieces, min, max) ==> min <= v <= max
      {
        PiecesUnion(pieces, min, max, v);
        if Admitted(v, pieces, min, max) {
          var i :| 0 <= i < |pieces| && InRange(v, PieceRange(pieces[i], min, max).value);
          InRangeBounds(v, PieceRange(pieces[i], min, max).value);
        }
      }
      var first := PieceRange(pieces[0], min, max).value;
      assert Nth(first, 0) == first.lo && InRange(first.lo, first);
      assert first.lo in Field(token, min, max).value;
    }
  }

  // The grammar, printed and read back ---------------------------------------------------------

  /** The documented forms of a piece: any value, a literal, or a range, each with an optional step. */
  datatype Span = Any | Literal(n: nat) | FromTo(a: nat, b: nat)
  datatype Item = Item(span: Span, every: Option<nat>)

  function PrintSpan(s: Span): string
  {
    match s
    case Any => "*"
    case Literal(n) => Decimal(n)
    case FromTo(a, b) => Decimal(a) + "-" + Decimal(b)
  }

  function PrintItem(it: Item): string
  {
    match it.every
    case None => PrintSpan(it.span)
    case Some(n) => PrintSpan(it.span) + "/" + Decimal(n)
  }

  function Denotes(it: Item, min: int, max: int): Range
  {
    var step := if it.every.Some? then it.every.value else 1;
    match it.span
    case Any => Range(min, max, step)
    case Literal(n) => Range(n, n, step)
    case FromTo(a, b) => Range(a, b, step)
  }

  ghost predicate Valid(it: Item, min: int, max: int)
  {
    var r := Denotes(it, min, max);
    0 < r.step < OVERFLOW && min <= r.lo <= r.hi <= max
  }

  lemma PrintedSpanClean(s: Span)
    ensures PrintSpan(s) != "" && '/' !in PrintSpan(s) && ',' !in PrintSpan(s)
    ensures Contains(PrintSpan(s), '-') <==> s.FromTo?
    ensures PrintSpan(s) == "*" <==> s.Any?
  {
    match s
    case Any =>
    case Literal(n) =>
      var p := PrintSpan(s);
      assert IsDigit(p[0]);
      assert forall i :: 0 <= i < |p| ==> p[i] in p;
    case FromTo(a, b) =>
      var p := PrintSpan(s);
      assert p[|Decimal(a)|] == '-';
      assert IsDigit(p[0]) by { assert p[0] == Decimal(a)[0]; }
  }

  lemma NumeralOfDecimal(n: nat)
    requires n < OVERFLOW
    ensures Numeral(Decimal(n)) == Some(n)
  {
    hide ParseInt, Decimal;
    ParseDecimal(n);
  }

  predicate InFloat(s: Span)
  {
    match s
    case Any => true
    case Literal(n) => n < OVERFLOW
    case FromTo(a, b) => a < OVERFLOW && b < OVERFLOW
  }

  lemma PrintedSpanBounds(s: Span, min: int, max: int)
    requires InFloat(s)
    ensures BoundsOf(PrintSpan(s), min, max) == Ok((Denotes(Item(s, None), min, max).lo, Denotes(Item(s, None), min, max).hi))
  {
    hide Numeral;
    PrintedSpanClean(s);
    match s
    case Any =>
    case Literal(n) =>
      NumeralOfDecimal(n);
    case FromTo(a, b) =>
      NumeralOfDecimal(a);
      NumeralOfDecimal(b);
      SplitAtFirst(Decimal(a), '-', Decimal(b));
      SplitAtFirst(Decimal(b), '-', "");
  }

  lemma FirstIndex(head: string, c: char, tail: string)
    requires c !in head
    ensures IndexOf(head + [c] + tail, c) == |head|
  {
    var s := head + [c] + tail;
    assert s[|head|] == c;
    assert forall k :: 0 <= k < |head| ==> s[k] in head;
  }

  /** Every documented piece is read back as exactly the range it denotes. */
  lemma PrintedItemParses(it: Item, min: int, max: int)
    requires Valid(it, min, max) && max < OVERFLOW
    ensures PieceRange(PrintItem(it), min, max) == Ok(Denotes(it, min, max))
    ensures ',' !in PrintItem(it)
  {
    hide Numeral, BoundsOf;
    PrintedSpanClean(it.span);
    PrintedSpanBounds(it.span, min, max);
    if it.every.Some? {
      var piece, i := PrintItem(it), |PrintSpan(it.span)|;
      FirstIndex(PrintSpan(it.span), '/', Decimal(it.every.value));
      assert piece == PrintSpan(it.span) + ['/'] + Decimal(it.every.value);
      assert piece[..i] == PrintSpan(it.span);
      assert piece[i + 1..] == Decimal(it.every.value);
      NumeralOfDecimal(it.every.value);
    }
  }

  function PrintItems(items: seq<Item>): seq<string>
  {
    seq(|items|, i requires 0 <= i < |items| => PrintItem(items[i]))
  }

  /** Reading a printed field gives exactly the union of what its items denote. */
  lemma PrintedFieldParses(items: seq<Item>, min: int, max: int)
    requires items != [] && max < OVERFLOW && forall i :: 0 <= i < |items| ==> Valid(items[i], min, max)
    ensures var r := Field(Join(PrintItems(items), ","), min, max);
            r.Ok? && forall v :: v in r.value <==>
              exists i :: 0 <= i < |items| && InRange(v, Denotes(items[i], min, max))
  {
    var pieces := PrintItems(items);
    forall i | 0 <= i < |items|
      ensures PieceRange(pieces[i], min, max) == Ok(Denotes(items[i], min, max)) && ',' !in pieces[i]
    {
      PrintedItemParses(items[i], min, max);
    }
    SplitJoin(pieces, ',');
    var token := Join(pieces, ",");
    FieldMeaning(token, min, max);
    forall v
      ensures v in Field(token, min, max).value <==> exists i :: 0 <= i < |items| && InRange(v, Denotes(items[i], min, max))
    {
      if Admitted(v, pieces, min, max) {
        var i :| 0 <= i < |pieces| && InRange(v, PieceRange(pieces[i], min, max).value);
        assert InRange(v, Denotes(items[i], min, max));
      }
      if i :| 0 <= i < |items| && InRange(v, Denotes(items[i], min, max)) {
        assert InRange(v, PieceRange(pieces[i], min, max).value);
      }
    }
  }

  // Whole expressions ---------------------------------------------------------------------------

  /** `s.split(/\s+/)` for a text without surrounding white space. */
  function Words(s: string): (words: seq<string>)
    ensures |words| >= 1
  {
    if s == "" then [""]
    else
      var rest := Words(s[1..]);
      if !IsSpace(s[0]) then [[s[0]] + rest[0]] + rest[1..]
      else if s[1..] != "" && IsSpace(s[1]) then rest
      else [""] + rest
  }

  function ParseCron(expr: string): Result<ParsedCron, CronError>
  {
    var parts := Words(Trim(expr));
    if |parts| != 5 then Err(FieldCount(|parts|))
    else
      var f := (i: nat) requires i < 5 => Field(parts[i], FieldMin(i), FieldMax(i));
      if f(0).Err? then Err(BadField(0, f(0).error))
      else if f(1).Err? then Err(BadField(1, f(1).error))
      else if f(2).Err? then Err(BadField(2, f(2).error))
      else if f(3).Err? then Err(BadField(3, f(3).error))
      else if f(4).Err? then Err(BadField(4, f(4).error))
      else Ok(ParsedCron(f(0).value, f(1).value, f(2).value, f(3).value, f(4).value))
  }

  /** What every parsed expression guarantees the search: non-empty fields within bounds. */
  ghost predicate WellFormed(p: ParsedCron)
  {
    && p.minute != {} && (forall v :: v in p.minute ==> 0 <= v <= 59)
    && p.hour != {} && (forall v :: v in p.hour ==> 0 <= v <= 23)
    && p.dayOfMonth != {} && (forall v :: v in p.dayOfMonth ==> 1 <= v <= 31)
    && p.month != {} && (forall v :: v in p.month ==> 1 <= v <= 12)
    && p.dayOfWeek != {} && (forall v :: v in p.dayOfWeek ==> 0 <= v <= 6)
  }

  lemma ParsedIsWellFormed(expr: string)
    ensures ParseCron(expr).Ok? ==> WellFormed(ParseCron(expr).value)
  {
    if ParseCron(expr).Ok? {
      var parts := Words(Trim(expr));
      forall i | 0 <= i < 5
        ensures var r := Field(parts[i], FieldMin(i), FieldMax(i));
                r.Ok? ==> r.value != {} && forall v :: v in r.value ==> FieldMin(i) <= v <= FieldMax(i)
      {
        FieldMeaning(parts[i], FieldMin(i), FieldMax(i));
      }
    }
  }

  /** Which error an expression gets: the number of its words unless there are five, else the first
      field that fails, counted from 0, with that field's error. */
  lemma FailsAtFirst(expr: string, i: nat, e: FieldError)
    requires i < 5
    ensures var words := Words(Trim(expr));
            && (ParseCron(expr) == Err(FieldCount(|words|)) <==> |words| != 5)
            && (ParseCron(expr) == Err(BadField(i, e)) <==>
                  |words| == 5 && Field(words[i], FieldMin(i), FieldMax(i)) == Err(e)
                  && forall k :: 0 <= k < i ==> Field(words[k], FieldMin(k), FieldMax(k)).Ok?)
  {
    hide Field, Words, Trim;
  }

  predicate Solid(word: string) { word != "" && forall c :: c in word ==> !IsSpace(c) }

  lemma {:induction false} WordsAtFirst(head: string, tail: string)
    requires Solid(head) && tail != "" && !IsSpace(tail[0])
    ensures Words(head) == [head]
    ensures Words(head + " " + tail) == [head] + Words(tail)
    decreases |head|
  {
    var s := head + " " + tail;
    if |head| == 1 {
      assert s[1..] == " " + tail && s[1..][1..] == tail;
      assert Words(head[1..]) == [""];
      assert [head[0]] + "" == head;
    } else {
      assert s[1..] == head[1..] + " " + tail;
      assert head == [head[0]] + head[1..] && !IsSpace(head[0]);
      WordsAtFirst(head[1..], tail);
    }
  }

  /** Five words written with single blanks between them are the five fields. */
  lemma {:induction false} WordsJoin(words: seq<string>)
    requires words != [] && forall i :: 0 <= i < |words| ==> Solid(words[i])
    ensures Words(Join(words, " ")) == words
    ensures Trimmed(Join(words, " "))
    decreases |words|
  {
    var w := words[0];
    assert !IsSpace(w[0]) && !IsSpace(w[|w| - 1]);
    if |words| == 1 {
      WordsAtFirst(w, "x");
    } else {
      WordsJoin(words[1..]);
      WordsAtFirst(w, Join(words[1..], " "));
    }
  }

  lemma PrintedItemSolid(it: Item)
    ensures Solid(PrintItem(it))
  {
    PrintedSpanClean(it.span);
    assert forall c :: c in PrintItem(it) ==> IsDigit(c) || c == '*' || c == '-' || c == '/';
  }

  lemma {:induction false} JoinSolid(parts: seq<string>)
    requires parts != [] && forall i :: 0 <= i < |parts| ==> Solid(parts[i])
    ensures Solid(Join(parts, ","))
    decreases |parts|
  {
    if |parts| > 1 {
      JoinSolid(parts[1..]);
    }
  }

  ghost predicate Union(s: set<int>, items: seq<Item>, min: int, max: int)
  {
    forall v :: v in s <==> exists i :: 0 <= i < |items| && InRange(v, Denotes(items[i], min, max))
  }

  /** A whole expression written in the documented grammar is accepted, and each of its five
      fields holds exactly the numbers its items denote. */
  lemma PrintedCronParses(fields: seq<seq<Item>>)
    requires |fields| == 5
    requires forall i :: 0 <= i < 5 ==> fields[i] != []
    requires forall i, j :: 0 <= i < 5 && 0 <= j < |fields[i]| ==> Valid(fields[i][j], FieldMin(i), FieldMax(i))
    ensures var tokens := seq(5, i requires 0 <= i < 5 => Join(PrintItems(fields[i]), ","));
            var r := ParseCron(Join(tokens, " "));
            r.Ok? && Union(r.value.minute, fields[0], 0, 59) && Union(r.value.hour, fields[1], 0, 23)
            && Union(r.value.dayOfMonth, fields[2], 1, 31) && Union(r.value.month, fields[3], 1, 12)
            && Union(r.value.dayOfWeek, fields[4], 0, 6)
  {
    var tokens := seq(5, i requires 0 <= i < 5 => Join(PrintItems(fields[i]), ","));
    forall i | 0 <= i < 5
      ensures Solid(tokens[i])
      ensures Field(tokens[i], FieldMin(i), FieldMax(i)).Ok?
      ensures Union(Field(tokens[i], FieldMin(i), FieldMax(i)).value, fields[i], FieldMin(i), FieldMax(i))
    {
      PrintedFieldParses(fields[i], FieldMin(i), FieldMax(i));
      forall j | 0 <= j < |fields[i]|
        ensures Solid(PrintItems(fields[i])[j])
      {
        PrintedItemSolid(fields[i][j]);
      }
      JoinSolid(PrintItems(fields[i]));
    }
    WordsJoin(tokens);
    TrimIsFixedPoint(Join(tokens, " "));
  }
}
