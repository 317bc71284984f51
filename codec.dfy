/** The text operations the message encoders and the status parser rely on: Python's literal
    `str.replace`, fixed document templates with `{{name}}` placeholders, `"{:010}".format(n)` and
    `int(text)`. */
module Codec {
  import opened Frames

  // ---------------------------------------------------------------------------------------------
  // str.replace

  /** `s.replace(pat, rep)` for a non-empty pattern: scan left to right and replace every
      occurrence of `pat` that does not overlap an occurrence already replaced. */
  function Replace(s: string, pat: string, rep: string): string
    requires |pat| > 0
    decreases |s|
  {
    if |s| < |pat| then s
    else if s[..|pat|] == pat then rep + Replace(s[|pat|..], pat, rep)
    else [s[0]] + Replace(s[1..], pat, rep)
  }

  /** A string no `{{name}}` placeholder can start in. */
  predicate NoOpenBrace(s: string)
  {
    '{' !in s
  }

  /** A placeholder name: no braces at all. */
  predicate PlainName(s: string)
  {
    '{' !in s && '}' !in s
  }

  function Placeholder(name: string): (p: string)
  {
    "{{" + name + "}}"
  }

  /** A position where no occurrence starts copies its character and moves on. */
  lemma ReplaceCopies(s: string, pat: string, rep: string)
    requires |pat| > 0 && |s| > 0 && (|s| < |pat| || s[..|pat|] != pat)
    ensures Replace(s, pat, rep) == [s[0]] + Replace(s[1..], pat, rep)
  {
    if |s| < |pat| {
      assert Replace(s[1..], pat, rep) == s[1..];
      assert [s[0]] + s[1..] == s;
    }
  }

  /** Text without an opening brace passes through `Replace` untouched when the pattern starts with
      one: no occurrence can begin inside it. */
  lemma {:induction false} ReplaceSkipsPlainPrefix(a: string, b: string, pat: string, rep: string)
    requires |pat| > 0 && pat[0] == '{' && NoOpenBrace(a)
    ensures Replace(a + b, pat, rep) == a + Replace(b, pat, rep)
    decreases |a|
  {
    if a != [] {
      var s := a + b;
      assert a[0] in a;
      assert forall c | c in a[1..] :: c in a;
      assert s[0] == a[0] != pat[0];
      assert |s| < |pat| || s[..|pat|][0] != pat[0];
      ReplaceCopies(s, pat, rep);
      assert s[1..] == a[1..] + b;
      ReplaceSkipsPlainPrefix(a[1..], b, pat, rep);
      assert [a[0]] + a[1..] == a;
    } else {
      assert a + b == b;
    }
  }

  /** `{{h}}` does not start with `{{n}}` when the names differ. */
  lemma PlaceholderMismatch(h: string, n: string, r: string)
    requires PlainName(h) && PlainName(n) && h != n
    ensures var s, p := Placeholder(h) + r, Placeholder(n); |s| < |p| || s[..|p|] != p
  {
    var s, p := Placeholder(h) + r, Placeholder(n);
    if |s| >= |p| {
      var w := s[..|p|];
      if |h| == |n| {
        assert w[2..2 + |h|] == h;
        assert p[2..2 + |n|] == n;
      } else if |h| < |n| {
        assert w[2 + |h|] == '}';
        assert p[2 + |h|] == n[|h|];
        assert n[|h|] in n;
      } else {
        assert w[2 + |n|] == h[|n|];
        assert h[|n|] in h;
        assert p[2 + |n|] == '}';
      }
    }
  }

  /** Nor does `{h}}`, the placeholder without its first brace. */
  lemma HalfPlaceholderMismatch(h: string, n: string, r: string)
    requires PlainName(h)
    ensures var s, p := "{" + h + "}}" + r, Placeholder(n); |s| < |p| || s[..|p|] != p
  {
    var s, p := "{" + h + "}}" + r, Placeholder(n);
    if |s| >= |p| {
      if |h| > 0 {
        assert s[1] == h[0];
        assert h[0] in h;
      } else {
        assert s[1] == '}';
      }
      assert p[1] == '{';
    }
  }

  /** A placeholder with another name is left in place. */
  lemma OtherPlaceholderKept(h: string, n: string, r: string, rep: string)
    requires PlainName(h) && PlainName(n) && h != n
    ensures Replace(Placeholder(h) + r, Placeholder(n), rep) == Placeholder(h) + Replace(r, Placeholder(n), rep)
  {
    var p := Placeholder(n);
    PlaceholderShape(h, r);
    PlaceholderMismatch(h, n, r);
    ReplaceCopies(Placeholder(h) + r, p, rep);
    HalfPlaceholderMismatch(h, n, r);
    ReplaceCopies("{" + h + "}}" + r, p, rep);
    ReplaceSkipsPlainPrefix(h + "}}", r, p, rep);
    PlaceholderRebuilt(h, Replace(r, p, rep));
  }

  /** How `{{h}}r` comes apart one brace at a time. */
  lemma PlaceholderShape(h: string, r: string)
    ensures (Placeholder(h) + r)[0] == '{' && (Placeholder(h) + r)[1..] == "{" + h + "}}" + r
    ensures ("{" + h + "}}" + r)[0] == '{' && ("{" + h + "}}" + r)[1..] == h + "}}" + r
  {
  }

  /** And how it goes back together. */
  lemma PlaceholderRebuilt(h: string, t: string)
    ensures ['{'] + (['{'] + ((h + "}}") + t)) == Placeholder(h) + t
  {
  }

  /** Replacing never touches a trailing character the pattern does not contain. */
  lemma {:induction false} ReplaceKeepsLast(s: string, pat: string, rep: string, c: char)
    requires |pat| > 0 && c !in pat && |s| > 0 && s[|s| - 1] == c
    ensures |Replace(s, pat, rep)| > 0 && Replace(s, pat, rep)[|Replace(s, pat, rep)| - 1] == c
    decreases |s|
  {
    if |s| >= |pat| {
      if s[..|pat|] == pat {
        assert s[|pat| - 1] == pat[|pat| - 1];
        assert s[|pat| - 1] in pat;
        assert |s| > |pat|;
        ReplaceKeepsLast(s[|pat|..], pat, rep, c);
      } else if |s| > 1 {
        ReplaceKeepsLast(s[1..], pat, rep, c);
      } else {
        assert Replace(s[1..], pat, rep) == [];
      }
    }
  }

  // ---------------------------------------------------------------------------------------------
  // Templates

  /** The placeholders the two documents use. */
  datatype Field = Eid | Dt | Ts | Msg | FromExt | FromName | FromLoc | ToExt

  function FieldName(f: Field): string
  {
    match f
    case Eid => "eid"
    case Dt => "dt"
    case Ts => "ts"
    case Msg => "msg"
    case FromExt => "from_ext"
    case FromName => "from_name"
    case FromLoc => "from_loc"
    case ToExt => "to_ext"
  }

  lemma FieldNamePlain(f: Field)
    ensures PlainName(FieldName(f))
  {
  }

  lemma FieldNamesDistinct(f: Field, g: Field)
    requires f != g
    ensures FieldName(f) != FieldName(g)
  {
    var a, b := FieldName(f), FieldName(g);
    if |a| == |b| {
      if |a| == 8 {
        assert a[5] != b[5];
      } else {
        assert a[0] != b[0];
      }
    }
  }

  /** The `{{name}}` placeholder of a field. */
  function PlaceholderOf(f: Field): string
  {
    Placeholder(FieldName(f))
  }

  /** A document skeleton: literal text and `{{name}}` placeholders. */
  datatype Segment = Lit(text: string) | Hole(field: Field)

  function RenderSegment(g: Segment): string
  {
    match g
    case Lit(t) => t
    case Hole(f) => PlaceholderOf(f)
  }

  /** The skeleton written out as one string, placeholders included. */
  function Render(t: seq<Segment>): string
  {
    RenderFrom(t, 0)
  }

  /** The segments from index `i` on, written out. */
  function RenderFrom(t: seq<Segment>, i: nat): string
    decreases |t| - i
  {
    if i >= |t| then "" else RenderSegment(t[i]) + RenderFrom(t, i + 1)
  }

  /** The first `n` segments, written out. */
  function RenderUpTo(t: seq<Segment>, n: nat): string
    requires n <= |t|
  {
    if n == 0 then "" else RenderUpTo(t, n - 1) + RenderSegment(t[n - 1])
  }

  /** Writing out splits at any index. */
  lemma {:induction false} RenderSplit(t: seq<Segment>, n: nat)
    requires n <= |t|
    ensures Render(t) == RenderUpTo(t, n) + RenderFrom(t, n)
  {
    if n == 0 {
      assert RenderUpTo(t, 0) + RenderFrom(t, 0) == RenderFrom(t, 0);
    } else {
      RenderSplit(t, n - 1);
      assert RenderFrom(t, n - 1) == RenderSegment(t[n - 1]) + RenderFrom(t, n);
      assert RenderUpTo(t, n - 1) + (RenderSegment(t[n - 1]) + RenderFrom(t, n))
          == (RenderUpTo(t, n - 1) + RenderSegment(t[n - 1])) + RenderFrom(t, n);
    }
  }

  /** Five more literal segments append their text. */
  lemma RenderFive(t: seq<Segment>, n: nat)
    requires n + 5 <= |t| && forall k | n <= k < n + 5 :: t[k].Lit?
    ensures RenderUpTo(t, n + 5) ==
      RenderUpTo(t, n) + t[n].text + t[n + 1].text + t[n + 2].text + t[n + 3].text + t[n + 4].text
  {
    assert RenderUpTo(t, n + 1) == RenderUpTo(t, n) + t[n].text;
    assert RenderUpTo(t, n + 2) == RenderUpTo(t, n + 1) + t[n + 1].text;
    assert RenderUpTo(t, n + 3) == RenderUpTo(t, n + 2) + t[n + 2].text;
    assert RenderUpTo(t, n + 4) == RenderUpTo(t, n + 3) + t[n + 3].text;
  }

  /** Two more literal segments append their text. */
  lemma RenderTwo(t: seq<Segment>, n: nat)
    requires n + 2 <= |t| && t[n].Lit? && t[n + 1].Lit?
    ensures RenderUpTo(t, n + 2) == RenderUpTo(t, n) + t[n].text + t[n + 1].text
  {
    assert RenderUpTo(t, n + 1) == RenderUpTo(t, n) + t[n].text;
  }

  /** Five literal segments at the start write out as their text. */
  lemma RenderFirstFive(t: seq<Segment>)
    requires 5 <= |t| && forall k | 0 <= k < 5 :: t[k].Lit?
    ensures RenderUpTo(t, 5) == t[0].text + t[1].text + t[2].text + t[3].text + t[4].text
  {
    assert RenderUpTo(t, 1) == "" + t[0].text == t[0].text;
    assert RenderUpTo(t, 2) == RenderUpTo(t, 1) + t[1].text;
    assert RenderUpTo(t, 3) == RenderUpTo(t, 2) + t[2].text;
    assert RenderUpTo(t, 4) == RenderUpTo(t, 3) + t[3].text;
  }

  /** A skeleton whose last segment is literal text ending in `c` writes out to text ending in `c`. */
  lemma {:induction false} RenderFromEndsWith(t: seq<Segment>, i: nat, c: char)
    requires i < |t| && t[|t| - 1].Lit? && |t[|t| - 1].text| > 0
    requires t[|t| - 1].text[|t[|t| - 1].text| - 1] == c
    ensures |RenderFrom(t, i)| > 0 && RenderFrom(t, i)[|RenderFrom(t, i)| - 1] == c
    decreases |t| - i
  {
    if i + 1 < |t| {
      RenderFromEndsWith(t, i + 1, c);
    } else {
      assert RenderFrom(t, i + 1) == "";
    }
  }

  /** Filling in a placeholder keeps the NUL that ends a document. */
  lemma ReplaceKeepsNul(doc: string, f: Field, v: string)
    requires |doc| > 0 && doc[|doc| - 1] == '\0'
    ensures |Replace(doc, PlaceholderOf(f), v)| > 0
    ensures Replace(doc, PlaceholderOf(f), v)[|Replace(doc, PlaceholderOf(f), v)| - 1] == '\0'
  {
    assert '\0' !in PlaceholderOf(f);
    ReplaceKeepsLast(doc, PlaceholderOf(f), v, '\0');
  }

  /** The skeleton with every placeholder of field `f` turned into the literal `v`. */
  function Fill(t: seq<Segment>, f: Field, v: string): (r: seq<Segment>)
    ensures |r| == |t|
    ensures forall i | 0 <= i < |t| :: r[i] == (if t[i] == Hole(f) then Lit(v) else t[i])
  {
    if t == [] then []
    else [if t[0] == Hole(f) then Lit(v) else t[0]] + Fill(t[1..], f, v)
  }

  /** The skeleton with the placeholders of every field in `vals` filled in. */
  function FillWith(t: seq<Segment>, vals: map<Field, string>): (r: seq<Segment>)
    ensures |r| == |t|
    ensures forall i | 0 <= i < |t| ::
      r[i] == (if t[i].Hole? && t[i].field in vals then Lit(vals[t[i].field]) else t[i])
  {
    seq(|t|, i requires 0 <= i < |t| =>
      if t[i].Hole? && t[i].field in vals then Lit(vals[t[i].field]) else t[i])
  }

  /** Filling one more field after a set of others is filling them all at once. */
  lemma FillAfterFillWith(t: seq<Segment>, vals: map<Field, string>, f: Field, v: string)
    requires f !in vals
    ensures Fill(FillWith(t, vals), f, v) == FillWith(t, vals[f := v])
  {
  }

  /** Literals hold no `{`. */
  predicate WellFormed(t: seq<Segment>)
  {
    forall i | 0 <= i < |t| :: t[i].Lit? ==> NoOpenBrace(t[i].text)
  }

  /** One `str.replace` step on a rendered skeleton fills exactly the placeholders of that field,
      provided the replacement text cannot start a placeholder itself. */
  lemma ReplaceFills(t: seq<Segment>, f: Field, v: string)
    requires WellFormed(t) && NoOpenBrace(v)
    ensures Replace(Render(t), PlaceholderOf(f), v) == Render(Fill(t, f, v))
    ensures WellFormed(Fill(t, f, v))
  {
    FieldNamePlain(f);
    ReplaceFillsFrom(t, f, v, 0);
  }

  lemma {:induction false} ReplaceFillsFrom(t: seq<Segment>, f: Field, v: string, i: nat)
    requires WellFormed(t) && PlainName(FieldName(f)) && NoOpenBrace(v)
    ensures Replace(RenderFrom(t, i), Placeholder(FieldName(f)), v) == RenderFrom(Fill(t, f, v), i)
    decreases |t| - i
  {
    var p := Placeholder(FieldName(f));
    if i < |t| {
      ReplaceFillsFrom(t, f, v, i + 1);
      var rest := RenderFrom(t, i + 1);
      match t[i]
      case Lit(s) =>
        ReplaceSkipsPlainPrefix(s, rest, p, v);
      case Hole(h) =>
        if h == f {
          assert (RenderSegment(t[i]) + rest)[..|p|] == p;
          assert (RenderSegment(t[i]) + rest)[|p|..] == rest;
        } else {
          FieldNamePlain(h);
          FieldNamesDistinct(h, f);
          OtherPlaceholderKept(FieldName(h), FieldName(f), rest, v);
        }
    }
  }

  /** The replacement chain of an encoder, one field at a time: a skeleton with some fields filled,
      after replacing the placeholder of a further field, is the skeleton with that field filled
      too. */
  lemma ReplaceStep(t: seq<Segment>, vals: map<Field, string>, f: Field, v: string)
    requires WellFormed(t) && NoOpenBrace(v) && f !in vals
    requires ValuesPlain(vals)
    ensures Replace(Render(FillWith(t, vals)), PlaceholderOf(f), v) == Render(FillWith(t, vals[f := v]))
  {
    ReplaceFills(FillWith(t, vals), f, v);
    FillAfterFillWith(t, vals, f, v);
  }

  /** Three `str.replace` steps in a row fill three more fields. */
  lemma ReplaceThree(t: seq<Segment>, vals: map<Field, string>, f1: Field, x1: string, f2: Field,
                     x2: string, f3: Field, x3: string)
    requires WellFormed(t) && ValuesPlain(vals)
    requires NoOpenBrace(x1) && NoOpenBrace(x2) && NoOpenBrace(x3)
    requires f1 !in vals && f2 !in vals && f3 !in vals && f1 != f2 && f1 != f3 && f2 != f3
    ensures ValuesPlain(vals[f1 := x1][f2 := x2][f3 := x3])
    ensures Replace(Replace(Replace(Render(FillWith(t, vals)), PlaceholderOf(f1), x1), PlaceholderOf(f2),
      x2), PlaceholderOf(f3), x3) == Render(FillWith(t, vals[f1 := x1][f2 := x2][f3 := x3]))
  {
    ReplaceStep(t, vals, f1, x1);
    ValuesPlainUpdate(vals, f1, x1);
    ReplaceStep(t, vals[f1 := x1], f2, x2);
    ValuesPlainUpdate(vals[f1 := x1], f2, x2);
    ReplaceStep(t, vals[f1 := x1][f2 := x2], f3, x3);
    ValuesPlainUpdate(vals[f1 := x1][f2 := x2], f3, x3);
  }

  /** Four `str.replace` steps in a row fill four more fields. */
  lemma ReplaceFour(t: seq<Segment>, vals: map<Field, string>, f1: Field, x1: string, f2: Field,
                    x2: string, f3: Field, x3: string, f4: Field, x4: string)
    requires WellFormed(t) && ValuesPlain(vals)
    requires NoOpenBrace(x1) && NoOpenBrace(x2) && NoOpenBrace(x3) && NoOpenBrace(x4)
    requires f1 !in vals && f2 !in vals && f3 !in vals && f4 !in vals
    requires f1 != f2 && f1 != f3 && f1 != f4 && f2 != f3 && f2 != f4 && f3 != f4
    ensures Replace(Replace(Replace(Replace(Render(FillWith(t, vals)), PlaceholderOf(f1), x1),
      PlaceholderOf(f2), x2), PlaceholderOf(f3), x3), PlaceholderOf(f4), x4)
      == Render(FillWith(t, vals[f1 := x1][f2 := x2][f3 := x3][f4 := x4]))
  {
    ReplaceThree(t, vals, f1, x1, f2, x2, f3, x3);
    ReplaceStep(t, vals[f1 := x1][f2 := x2][f3 := x3], f4, x4);
  }

  /** Values none of which can start a placeholder. */
  predicate ValuesPlain(vals: map<Field, string>)
  {
    forall g | g in vals :: NoOpenBrace(vals[g])
  }

  lemma ValuesPlainUpdate(vals: map<Field, string>, f: Field, v: string)
    requires ValuesPlain(vals) && NoOpenBrace(v)
    ensures ValuesPlain(vals[f := v])
  {
  }

  lemma FillWithNothing(t: seq<Segment>)
    ensures FillWith(t, map[]) == t
  {
  }

  // ---------------------------------------------------------------------------------------------
  // "{:010}".format(n) and int(text)

  predicate IsDigit(c: char)
  {
    '0' <= c <= '9'
  }

  predicate AllDigits(s: string)
  {
    forall i | 0 <= i < |s| :: IsDigit(s[i])
  }

  function DigitChar(d: nat): (c: char)
    requires d < 10
    ensures IsDigit(c) && (c as int) - ('0' as int) == d
  {
    (('0' as int) + d) as char
  }

  function DigitValue(c: char): nat
    requires IsDigit(c)
  {
    (c as int) - ('0' as int)
  }

  /** `str(n)` for a non-negative integer: decimal digits, no leading zero. */
  function Decimal(n: nat): (s: string)
    ensures |s| > 0 && AllDigits(s)
  {
    if n < 10 then [DigitChar(n)] else Decimal(n / 10) + [DigitChar(n % 10)]
  }

  function Zeros(k: nat): (s: string)
    ensures |s| == k && forall i | 0 <= i < k :: s[i] == '0'
  {
    if k == 0 then "" else Zeros(k - 1) + "0"
  }

  /** `"{:0<width>}".format(n)` for n >= 0: the decimal digits, left-padded with '0' to `width`
      characters and never truncated. */
  function FormatZeroPadded(n: nat, width: nat): string
  {
    var d := Decimal(n);
    if |d| >= width then d else Zeros(width - |d|) + d
  }

  /** The number a non-empty run of decimal digits denotes, leading zeros allowed. */
  function DigitsValue(s: string): nat
    requires AllDigits(s)
  {
    if s == [] then 0 else 10 * DigitsValue(s[..|s| - 1]) + DigitValue(s[|s| - 1])
  }

  /** `int(text)`: an optional sign followed by one or more decimal digits; None where Python
      raises (TypeError for a None text, ValueError for anything else). */
  function ParseInt(t: Text): Option<int>
  {
    match t
    case None => None
    case Some(s) =>
      var sign := if |s| > 0 && (s[0] == '+' || s[0] == '-') then 1 else 0;
      var digits := s[sign..];
      if |digits| == 0 || !AllDigits(digits) then None
      else
        var v: int := DigitsValue(digits);
        Some(if sign == 1 && s[0] == '-' then -v else v)
  }

  function Pow10(k: nat): (p: nat)
    ensures p >= 1
  {
    if k == 0 then 1 else 10 * Pow10(k - 1)
  }

  lemma {:induction false} DecimalValue(n: nat)
    ensures DigitsValue(Decimal(n)) == n
  {
    var d := Decimal(n);
    if n >= 10 {
      DecimalValue(n / 10);
      assert d[..|d| - 1] == Decimal(n / 10);
    }
  }

  lemma {:induction false} DecimalLength(n: nat, w: nat)
    requires w >= 1 && n < Pow10(w)
    ensures |Decimal(n)| <= w
  {
    if n >= 10 {
      assert w >= 2;
      DecimalLength(n / 10, w - 1);
    }
  }

  lemma {:induction false} LeadingZerosIgnored(k: nat, s: string)
    requires AllDigits(s)
    ensures AllDigits(Zeros(k) + s) && DigitsValue(Zeros(k) + s) == DigitsValue(s)
    decreases |s|
  {
    var z := Zeros(k) + s;
    if s == [] {
      assert z == Zeros(k);
      ZerosValue(k);
    } else {
      LeadingZerosIgnored(k, s[..|s| - 1]);
      assert z[..|z| - 1] == Zeros(k) + s[..|s| - 1];
    }
  }

  lemma {:induction false} ZerosValue(k: nat)
    ensures DigitsValue(Zeros(k)) == 0
  {
    if k > 0 {
      ZerosValue(k - 1);
      assert Zeros(k)[..k - 1] == Zeros(k - 1);
    }
  }

  /** A non-negative number below 10^10 renders as exactly ten decimal digits, and `int` reads it
      back: the internal id survives its trip through the `externalid` element. */
  lemma TenDigitRoundTrip(n: nat)
    requires n < Pow10(10)
    ensures |FormatZeroPadded(n, 10)| == 10 && AllDigits(FormatZeroPadded(n, 10))
    ensures ParseInt(Some(FormatZeroPadded(n, 10))) == Some(n)
  {
    var d := Decimal(n);
    DecimalLength(n, 10);
    DecimalValue(n);
    LeadingZerosIgnored(10 - |d|, d);
    var s := FormatZeroPadded(n, 10);
    assert s == Zeros(10 - |d|) + d;
    assert s[0] != '+' && s[0] != '-';
    assert s[0..] == s;
  }
}
