/** The JavaScript string operations the modelled code uses, with the laws that connect them. */
module Text {

  datatype Option<+T> = None | Some(value: T)

  datatype Result<+T, +E> = Ok(value: T) | Err(error: E)

  /** JavaScript white space, the class used by both `trim` and `\s`. */
  predicate IsSpace(c: char)
  {
    var n := c as int;
    9 <= n <= 13 || n == 32 || n == 0xA0 || n == 0x1680 || 0x2000 <= n <= 0x200A
    || n == 0x2028 || n == 0x2029 || n == 0x202F || n == 0x205F || n == 0x3000 || n == 0xFEFF
  }

  /** The blanks one by one: tab to carriage return, the space and the no-break space, the space
      separators of Unicode, the line and paragraph separators, and the byte-order mark. */
  lemma BlanksListed(c: char)
    ensures IsSpace(c) <==>
              || c == '\t' || c == '\n' || c == '\U{000B}' || c == '\U{000C}' || c == '\r' || c == ' ' || c == '\U{00A0}'
              || c == '\U{1680}' || c == '\U{2000}' || c == '\U{2001}' || c == '\U{2002}' || c == '\U{2003}' || c == '\U{2004}'
              || c == '\U{2005}' || c == '\U{2006}' || c == '\U{2007}' || c == '\U{2008}' || c == '\U{2009}' || c == '\U{200A}'
              || c == '\U{202F}' || c == '\U{205F}' || c == '\U{3000}'
              || c == '\U{2028}' || c == '\U{2029}' || c == '\U{FEFF}'
  {
    var n := c as int;
    assert c == n as char;
  }

  predicate IsDigit(c: char) { '0' <= c <= '9' }

  function TrimStart(s: string): string
  {
    if s != "" && IsSpace(s[0]) then TrimStart(s[1..]) else s
  }

  function TrimEnd(s: string): string
  {
    if s != "" && IsSpace(s[|s| - 1]) then TrimEnd(s[..|s| - 1]) else s
  }

  function Trim(s: string): string { TrimEnd(TrimStart(s)) }

  /** A non-empty text that trimming leaves alone. */
  predicate Trimmed(s: string)
  {
    s != "" && !IsSpace(s[0]) && !IsSpace(s[|s| - 1])
  }

  lemma {:induction false} TrimEndPrefix(s: string)
    ensures TrimEnd(s) <= s
    ensures TrimEnd(s) != "" ==> !IsSpace(TrimEnd(s)[|TrimEnd(s)| - 1])
    decreases |s|
  {
    if s != "" && IsSpace(s[|s| - 1]) {
      TrimEndPrefix(s[..|s| - 1]);
    }
  }

  lemma {:induction false} TrimStartSuffix(s: string)
    ensures TrimStart(s) != "" ==> !IsSpace(TrimStart(s)[0])
    decreases |s|
  {
    if s != "" && IsSpace(s[0]) {
      TrimStartSuffix(s[1..]);
    }
  }

  /** Trimming yields the empty text or a trimmed one, and fixes exactly those. */
  lemma TrimIsFixedPoint(s: string)
    ensures Trim(s) == "" || Trimmed(Trim(s))
    ensures Trim(s) == s <==> s == "" || Trimmed(s)
  {
    TrimStartSuffix(s);
    TrimEndPrefix(TrimStart(s));
  }

  predicate AllBlank(s: string) { forall k :: 0 <= k < |s| ==> IsSpace(s[k]) }

  /** Trimming takes blanks off both ends and nothing else. */
  lemma {:induction false} TrimTakesBlanks(s: string) returns (a: string, b: string)
    ensures s == a + Trim(s) + b && AllBlank(a) && AllBlank(b)
  {
    a := TrimStartTakes(s);
    b := TrimEndTakes(TrimStart(s));
  }

  lemma {:induction false} TrimStartTakes(s: string) returns (a: string)
    ensures s == a + TrimStart(s) && AllBlank(a)
    decreases |s|
  {
    a := "";
    if s != "" && IsSpace(s[0]) {
      a := TrimStartTakes(s[1..]);
      a := [s[0]] + a;
    }
  }

  lemma {:induction false} TrimEndTakes(s: string) returns (b: string)
    ensures s == TrimEnd(s) + b && AllBlank(b)
    decreases |s|
  {
    b := "";
    if s != "" && IsSpace(s[|s| - 1]) {
      b := TrimEndTakes(s[..|s| - 1]);
      b := b + [s[|s| - 1]];
    }
  }

  lemma {:induction false} LowerCaseAt(s: string, k: nat)
    requires k < |s|
    ensures LowerCase(s)[k] == if 'A' <= s[k] <= 'Z' then (s[k] as int + 32) as char else s[k]
    decreases |s|
  {
    if k > 0 {
      LowerCaseAt(s[1..], k - 1);
    }
  }

  /** A leading blank and trailing text that is already trimmed: `" " + c` trims to `c`. */
  lemma TrimBlankPrefix(c: string)
    ensures Trim(" " + c) == Trim(c)
  {
    assert (" " + c)[1..] == c;
  }

  /** `toLowerCase` on the ASCII letters. */
  function LowerCase(s: string): (r: string)
    ensures |r| == |s|
  {
    if s == "" then "" else [if 'A' <= s[0] <= 'Z' then (s[0] as int + 32) as char else s[0]] + LowerCase(s[1..])
  }

  predicate Contains(s: string, c: char) { exists i :: 0 <= i < |s| && s[i] == c }

  predicate StartsWith(s: string, prefix: string) { prefix <= s }

  function IndexOf(s: string, c: char): (i: int)
    ensures i == -1 <==> !Contains(s, c)
    ensures i != -1 ==> 0 <= i < |s| && s[i] == c && forall k :: 0 <= k < i ==> s[k] != c
  {
    if s == "" then -1
    else if s[0] == c then 0
    else
      var i := IndexOf(s[1..], c);
      if i == -1 then
        assert forall k :: 0 < k < |s| ==> s[k] == s[1..][k - 1];
        -1
      else
        assert s[i + 1] == c;
        assert forall k :: 0 < k < i + 1 ==> s[k] == s[1..][k - 1];
        i + 1
  }

  /** `s.split(sep)` for a one-character separator; never empty. */
  function Split(s: string, sep: char): (parts: seq<string>)
    ensures |parts| >= 1
    ensures forall i :: 0 <= i < |parts| ==> sep !in parts[i]
  {
    if s == "" then [""]
    else
      var rest := Split(s[1..], sep);
      if s[0] == sep then [""] + rest else [[s[0]] + rest[0]] + rest[1..]
  }

  function Join(parts: seq<string>, glue: string): string
  {
    if parts == [] then "" else if |parts| == 1 then parts[0] else parts[0] + glue + Join(parts[1..], glue)
  }

  /** Joining undoes splitting. */
  lemma {:induction false} JoinSplit(s: string, sep: char)
    ensures Join(Split(s, sep), [sep]) == s
    decreases |s|
  {
    if s != "" {
      JoinSplit(s[1..], sep);
      var rest := Split(s[1..], sep);
      assert s == [s[0]] + s[1..];
      if s[0] == sep {
        assert Split(s, sep)[1..] == rest;
      } else {
        assert Split(s, sep)[1..] == rest[1..];
      }
    }
  }

  /** Text before the first separator is the first part; the remainder splits on its own. */
  lemma {:induction false} SplitAtFirst(head: string, sep: char, tail: string)
    requires sep !in head
    ensures Split(head + [sep] + tail, sep) == [head] + Split(tail, sep)
    ensures Split(head, sep) == [head]
    decreases |head|
  {
    var s := head + [sep] + tail;
    if head == "" {
      assert s[1..] == tail;
    } else {
      SplitAtFirst(head[1..], sep, tail);
      assert s[1..] == head[1..] + [sep] + tail;
      assert head == [head[0]] + head[1..];
    }
  }

  /** Splitting undoes joining when no part contains the separator. */
  lemma {:induction false} SplitJoin(parts: seq<string>, sep: char)
    requires parts != [] && forall i :: 0 <= i < |parts| ==> sep !in parts[i]
    ensures Split(Join(parts, [sep]), sep) == parts
    decreases |parts|
  {
    if |parts| == 1 {
      SplitAtFirst(parts[0], sep, "");
    } else {
      hide Split;
      var tail := Join(parts[1..], [sep]);
      SplitJoin(parts[1..], sep);
      SplitAtFirst(parts[0], sep, tail);
      assert Join(parts, [sep]) == parts[0] + [sep] + tail;
      assert parts == [parts[0]] + parts[1..];
    }
  }

  /** The parts hold the characters of the text but the separators. */
  lemma {:induction false} SplitHolds(s: string, sep: char, c: char)
    ensures c in s && c != sep <==> exists i :: 0 <= i < |Split(s, sep)| && c in Split(s, sep)[i]
    decreases |s|
  {
    if s != "" {
      var rest, parts := Split(s[1..], sep), Split(s, sep);
      SplitHolds(s[1..], sep, c);
      assert s == [s[0]] + s[1..];
      if s[0] == sep {
        assert forall i :: 0 <= i < |rest| ==> parts[i + 1] == rest[i];
      } else {
        assert parts[0] == [s[0]] + rest[0] && forall i :: 1 <= i < |rest| ==> parts[i] == rest[i];
      }
    }
  }

  /** The first part ends at the first separator. */
  lemma {:induction false} FirstPart(s: string, sep: char, n: nat)
    ensures |Split(s, sep)[0]| >= n <==> |s| >= n && forall k :: 0 <= k < n ==> s[k] != sep
    decreases |s|
  {
    if s != "" && n > 0 {
      FirstPart(s[1..], sep, n - 1);
      if s[0] != sep {
        assert forall k :: 1 <= k < n && n <= |s| ==> s[k] == s[1..][k - 1];
      }
    }
  }

  predicate NoTwinSeparators(s: string, sep: char)
  {
    forall k :: 0 <= k < |s| - 1 ==> s[k] != sep || s[k + 1] != sep
  }

  predicate LaterFilled(parts: seq<string>) { forall i :: 1 <= i < |parts| ==> parts[i] != "" }

  lemma LaterFilledStep(x: string, rest: seq<string>)
    requires rest != []
    ensures LaterFilled([x] + rest) <==> rest[0] != "" && LaterFilled(rest)
    ensures LaterFilled([x] + rest[1..]) <==> LaterFilled(rest)
  {
    var more, fewer := [x] + rest, [x] + rest[1..];
    assert forall i :: 0 <= i < |rest| ==> more[i + 1] == rest[i];
    assert forall i :: 1 <= i < |rest| ==> fewer[i] == rest[i];
  }

  lemma TwinsStep(s: string, sep: char)
    requires s != ""
    ensures NoTwinSeparators(s, sep) <==>
              NoTwinSeparators(s[1..], sep) && (|s| > 1 ==> s[0] != sep || s[1] != sep)
  {
    var t := s[1..];
    assert forall k :: 1 <= k < |s| ==> s[k] == t[k - 1];
    if NoTwinSeparators(s, sep) {
      forall k | 0 <= k < |t| - 1
        ensures t[k] != sep || t[k + 1] != sep
      {
        assert s[k + 1] != sep || s[k + 2] != sep;
      }
    }
  }

  /** No part but perhaps the first is empty exactly when the text does not end in a separator and no
      two stand side by side. */
  lemma {:induction false} LaterParts(s: string, sep: char)
    ensures LaterFilled(Split(s, sep)) <==> (s == "" || s[|s| - 1] != sep) && NoTwinSeparators(s, sep)
    decreases |s|
  {
    if s != "" {
      var t := s[1..];
      var rest := Split(t, sep);
      LaterParts(t, sep);
      FirstPart(t, sep, 1);
      TwinsStep(s, sep);
      LaterFilledStep(if s[0] == sep then "" else [s[0]] + rest[0], rest);
      hide LaterFilled, NoTwinSeparators;
    }
  }

  // Decimal numerals ---------------------------------------------------------------------------

  function DigitValue(c: char): nat
    requires IsDigit(c)
  {
    c as int - '0' as int
  }

  function DigitChar(d: nat): (c: char)
    requires d < 10
    ensures IsDigit(c) && DigitValue(c) == d
  {
    ('0' as int + d) as char
  }

  /** The canonical decimal numeral. */
  function Decimal(n: nat): (s: string)
    ensures s != "" && forall c :: c in s ==> IsDigit(c)
  {
    if n < 10 then [DigitChar(n)] else Decimal(n / 10) + [DigitChar(n % 10)]
  }

  function DigitPrefix(s: string): (p: string)
    ensures p <= s && forall c :: c in p ==> IsDigit(c)
    ensures p == s || !IsDigit(s[|p|])
  {
    if s == "" || !IsDigit(s[0]) then "" else [s[0]] + DigitPrefix(s[1..])
  }

  function NumeralValue(s: string): nat
    requires forall c :: c in s ==> IsDigit(c)
  {
    if s == "" then 0 else NumeralValue(s[..|s| - 1]) * 10 + DigitValue(s[|s| - 1])
  }

  /** `parseInt(s, 10)`: optional blanks and sign, then the leading digits; None is NaN. */
  function ParseInt(s: string): Option<int>
  {
    var t := TrimStart(s);
    var signed := t != "" && (t[0] == '-' || t[0] == '+');
    var digits := DigitPrefix(if signed then t[1..] else t);
    if digits == "" then None
    else if signed && t[0] == '-' then Some(0 - NumeralValue(digits) as int)
    else Some(NumeralValue(digits) as int)
  }

  lemma {:induction false} DecimalValue(n: nat)
    ensures NumeralValue(Decimal(n)) == n
    decreases n
  {
    var s := Decimal(n);
    if n >= 10 {
      DecimalValue(n / 10);
      assert s[..|s| - 1] == Decimal(n / 10);
    }
  }

  lemma {:induction false} DigitPrefixWhole(s: string)
    requires forall c :: c in s ==> IsDigit(c)
    ensures DigitPrefix(s) == s
    decreases |s|
  {
    if s != "" {
      DigitPrefixWhole(s[1..]);
    }
  }

  /** Parsing undoes printing. */
  lemma ParseDecimal(n: nat)
    ensures ParseInt(Decimal(n)) == Some(n)
  {
    var s := Decimal(n);
    assert IsDigit(s[0]);
    DigitPrefixWhole(s);
    DecimalValue(n);
  }

  lemma {:induction false} DigitPrefixStops(digits: string, rest: string)
    requires (forall c :: c in digits ==> IsDigit(c)) && (rest == "" || !IsDigit(rest[0]))
    ensures DigitPrefix(digits + rest) == digits
    decreases |digits|
  {
    if digits == "" {
      assert digits + rest == rest;
    } else {
      DigitPrefixStops(digits[1..], rest);
      assert (digits + rest)[1..] == digits[1..] + rest;
    }
  }

  predicate IsSign(sign: string) { sign == "" || sign == "+" || sign == "-" }

  /** Parsing skips blanks, reads a sign and the leading digits, and ignores what follows. */
  lemma ParseIntMeaning(blanks: string, sign: string, n: nat, rest: string)
    requires AllBlank(blanks) && IsSign(sign) && (rest == "" || !IsDigit(rest[0]))
    ensures ParseInt(blanks + (sign + (Decimal(n) + rest))) == Some(if sign == "-" then 0 - n as int else n as int)
  {
    DecimalValue(n);
    ParseDigits(blanks, sign, Decimal(n), rest);
    hide ParseInt, Decimal, AllBlank;
  }

  lemma ParseDigits(blanks: string, sign: string, digits: string, rest: string)
    requires AllBlank(blanks) && IsSign(sign) && (rest == "" || !IsDigit(rest[0]))
    requires digits != "" && forall c :: c in digits ==> IsDigit(c)
    ensures ParseInt(blanks + (sign + (digits + rest)))
            == Some(if sign == "-" then 0 - NumeralValue(digits) as int else NumeralValue(digits) as int)
  {
    var t := sign + (digits + rest);
    DigitPrefixStops(digits, rest);
    SignedText(sign, digits, rest);
    hide NumeralValue, DigitPrefix, TrimStart, IsDigit, IsSpace, AllBlank, ParseInt;
    ParsesAs(blanks, t, digits);
  }

  lemma ParsesAs(blanks: string, t: string, digits: string)
    requires AllBlank(blanks) && t != "" && !IsSpace(t[0]) && digits != "" && forall c :: c in digits ==> IsDigit(c)
    requires DigitPrefix(if t[0] == '-' || t[0] == '+' then t[1..] else t) == digits
    ensures ParseInt(blanks + t) == Some(if t[0] == '-' then 0 - NumeralValue(digits) as int else NumeralValue(digits) as int)
  {
    TrimStartSkips(blanks, t);
    hide NumeralValue, DigitPrefix, TrimStart, IsDigit, IsSpace, AllBlank;
  }

  lemma SignedText(sign: string, digits: string, rest: string)
    requires IsSign(sign) && digits != "" && forall c :: c in digits ==> IsDigit(c)
    ensures var t, body := sign + (digits + rest), digits + rest;
            && t != "" && !IsSpace(t[0])
            && (sign == "" ==> t == body && t[0] != '-' && t[0] != '+')
            && (sign != "" ==> t[1..] == body && (t[0] == '-' <==> sign == "-") && (t[0] == '-' || t[0] == '+'))
  {
    var t, body := sign + (digits + rest), digits + rest;
    assert digits[0] in digits && body[0] == digits[0];
    assert t[0] == if sign == "" then body[0] else sign[0];
  }

  /** With no digit there it fails. */
  lemma ParseIntFails(blanks: string, sign: string, rest: string)
    requires AllBlank(blanks) && IsSign(sign) && (rest == "" || !IsDigit(rest[0]))
    requires sign == "" && rest != "" ==> !IsSpace(rest[0]) && rest[0] != '+' && rest[0] != '-'
    ensures ParseInt(blanks + (sign + rest)) == None
  {
    DigitPrefixStops("", rest);
    hide NumeralValue, DigitPrefix, TrimStart;
    assert "" + rest == rest;
    var t := sign + rest;
    assert sign == "" ==> t == rest;
    assert sign != "" ==> t[1..] == rest && t[0] == sign[0];
    TrimStartSkips(blanks, t);
  }

  lemma {:induction false} TrimStartSkips(blanks: string, t: string)
    requires AllBlank(blanks) && (t == "" || !IsSpace(t[0]))
    ensures TrimStart(blanks + t) == t
    decreases |blanks|
  {
    if blanks == "" {
      assert blanks + t == t;
    } else {
      TrimStartSkips(blanks[1..], t);
      assert (blanks + t)[1..] == blanks[1..] + t;
    }
  }

  /** Distinct numbers have distinct numerals. */
  lemma DecimalInjective(a: nat, b: nat)
    requires Decimal(a) == Decimal(b)
    ensures a == b
  {
    DecimalValue(a);
    DecimalValue(b);
  }
}
