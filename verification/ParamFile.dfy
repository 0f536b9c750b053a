/** A script parameter file is read back as it was written. */
module ParamFile {
  import opened Arithmetic
  import opened Options
  import opened ParamSpec

  /** A name as a script can declare it: a token that starts with a letter. */
  ghost predicate WellNamed(name: string) {
    0 < |name| <= MAX_PARAM_NAME_LEN && IsAlpha(name[0]) && forall i :: 0 <= i < |name| ==> IsToken(name[i])
  }

  predicate IsInt(v: int) {
    -0x8000_0000 <= v <= 0x7fff_ffff
  }

  ghost predicate Saveable(p: Param) {
    p.name.Some? ==> WellNamed(p.name.value) && IsInt(p.val)
  }

  // ---- numbers ------------------------------------------------------------------------------------

  /** w stands at position p of s. */
  ghost predicate Here(s: string, p: nat, w: string) {
    StartsWith(s, p, w)
  }

  lemma HereSplit(s: string, p: nat, v: string, w: string)
    requires Here(s, p, v + w)
    ensures Here(s, p, v) && Here(s, p + |v|, w)
  {
    assert s[p..p + |v|] == s[p..p + |v + w|][..|v|] == v;
    assert s[p + |v|..p + |v + w|] == s[p..p + |v + w|][|v|..] == w;
  }

  lemma {:induction false} DigitsRead(s: string, p: nat, n: nat)
    requires Here(s, p, Digits(n))
    ensures p <= p + |Digits(n)| <= |s|
    ensures Accumulate(s, p, 10, 0) == Accumulate(s, p + |Digits(n)|, 10, n)
  {
    if n < 10 {
      assert s[p] == Digits(n)[0];
    } else {
      var (m, c) := (n / 10, ('0' as int + n % 10) as char);
      HereSplit(s, p, Digits(m), [c]);
      DigitsRead(s, p, m);
      var q := p + |Digits(m)|;
      assert s[q] == s[q..q + 1][0] == c;
    }
  }

  lemma {:induction false} FirstDigit(n: nat)
    ensures '0' <= Digits(n)[0] <= '9' && (n > 0 ==> Digits(n)[0] != '0')
  {
    if n >= 10 {
      FirstDigit(n / 10);
    }
  }

  /** strtol reads back what the decimal format prints, zero as an octal number; what is out of range becomes the nearest limit. */
  lemma DecimalRead(s: string, p: nat, v: int)
    requires Here(s, p, Decimal(v)) && At(s, p + |Decimal(v)|) == '\n'
    ensures StrToL(s, p) == if v < -0x8000_0000 then -0x8000_0000 else if v > 0x7fff_ffff then 0x7fff_ffff else v
  {
    hide StrToL, At, Here;
    if v < 0 {
      NegativeRead(s, p, -v);
    } else if v > 0 {
      PositiveRead(s, p, v);
    } else {
      ZeroRead(s, p);
    }
  }

  lemma ZeroRead(s: string, p: nat)
    requires Here(s, p, "0") && At(s, p + 1) == '\n'
    ensures StrToL(s, p) == 0
  {
    assert s[p] == s[p..p + 1][0] == '0';
    assert Accumulate(s, p, 8, 0) == Accumulate(s, p + 1, 8, 0) == 0;
  }

  lemma NegativeRead(s: string, p: nat, n: nat)
    requires n > 0 && Here(s, p, "-" + Digits(n)) && At(s, p + 1 + |Digits(n)|) == '\n'
    ensures StrToL(s, p) == -(if n > 0x8000_0000 then 0x8000_0000 else n)
  {
    hide Digits;
    HereSplit(s, p, "-", Digits(n));
    assert s[p] == s[p..p + 1][0] == '-';
    DigitsEnd(s, p + 1, n);
    assert SkipBlank(s, p) == p;
  }

  lemma PositiveRead(s: string, p: nat, n: nat)
    requires n > 0 && Here(s, p, Digits(n)) && At(s, p + |Digits(n)|) == '\n'
    ensures StrToL(s, p) == if n > 0x7fff_ffff then 0x7fff_ffff else n
  {
    hide Digits;
    DigitsEnd(s, p, n);
    assert SkipBlank(s, p) == p;
  }

  lemma DigitsEnd(s: string, p: nat, n: nat)
    requires n > 0 && Here(s, p, Digits(n)) && At(s, p + |Digits(n)|) == '\n'
    ensures p < |s| && '1' <= s[p] <= '9' && Accumulate(s, p, 10, 0) == n
  {
    FirstDigit(n);
    assert s[p] == s[p..p + |Digits(n)|][0];
    DigitsRead(s, p, n);
  }

  function DigitChar(k: nat): char
    requires k < 16
  {
    if k < 10 then ('0' as int + k) as char else ('a' as int + k - 10) as char
  }

  lemma DigitCharIs(k: nat)
    requires k < 16
    ensures Digit(DigitChar(k)) == k
  {
  }

  lemma Division(n: nat, base: nat)
    requires base >= 2
    ensures 0 <= n / base && 0 <= n % base < base && n / base * base + n % base == n && (n >= base ==> n / base < n)
  {
    var q := n / base;
    assert n == q * base + n % base;
    if q < 0 {
      TimesMonotone(0, -1 - q, base);
    } else {
      TimesMonotone(2, base, q);
    }
  }

  /** n in another base, with the letters from a on as digits above 9. */
  function InBase(n: nat, base: nat): (r: string)
    requires 2 <= base <= 16
    ensures r != ""
  {
    Division(n, base);
    if n < base then [DigitChar(n)] else InBase(n / base, base) + [DigitChar(n % base)]
  }

  lemma {:induction false} InBaseRead(s: string, p: nat, n: nat, base: nat)
    requires 2 <= base <= 16 && Here(s, p, InBase(n, base))
    ensures p + |InBase(n, base)| <= |s| && Digit(s[p]) < base
    ensures Accumulate(s, p, base, 0) == Accumulate(s, p + |InBase(n, base)|, base, n)
  {
    hide Digit, DigitChar;
    Division(n, base);
    if n < base {
      DigitCharIs(n);
      assert s[p] == s[p..p + 1][0] == DigitChar(n);
      assert 0 * base + Digit(s[p]) == n;
    } else {
      DigitCharIs(n % base);
      var q := p + |InBase(n / base, base)|;
      HereSplit(s, p, InBase(n / base, base), [DigitChar(n % base)]);
      assert s[q] == s[q..q + 1][0] == DigitChar(n % base);
      InBaseRead(s, p, n / base, base);
      assert n / base * base + Digit(s[q]) == n;
    }
  }

  /** strtol reads 0x and hexadecimal digits. */
  lemma HexRead(s: string, p: nat, n: nat)
    requires Here(s, p, "0x" + InBase(n, 16)) && At(s, p + 2 + |InBase(n, 16)|) == '\n'
    ensures StrToL(s, p) == if n > 0x7fff_ffff then 0x7fff_ffff else n
  {
    hide InBase, Digit;
    HereSplit(s, p, "0x", InBase(n, 16));
    assert s[p] == s[p..p + 2][0] == '0' && s[p + 1] == s[p..p + 2][1] == 'x';
    InBaseRead(s, p + 2, n, 16);
    NoDigit('\n');
    assert SkipBlank(s, p) == p;
  }

  /** strtol reads 0 and octal digits. */
  lemma OctalRead(s: string, p: nat, n: nat)
    requires Here(s, p, "0" + InBase(n, 8)) && At(s, p + 1 + |InBase(n, 8)|) == '\n'
    ensures StrToL(s, p) == if n > 0x7fff_ffff then 0x7fff_ffff else n
  {
    hide InBase;
    HereSplit(s, p, "0", InBase(n, 8));
    assert s[p] == s[p..p + 1][0] == '0';
    InBaseRead(s, p + 1, n, 8);
    assert SkipBlank(s, p) == p && Accumulate(s, p, 8, 0) == Accumulate(s, p + 1, 8, 0);
  }

  lemma NoDigit(c: char)
    requires c == '\n'
    ensures Digit(c) == 99
  {
  }

  // ---- one line -----------------------------------------------------------------------------------

  lemma {:induction false} TokenEnds(s: string, p: nat, q: nat)
    requires p <= q < |s| && !IsToken(s[q]) && forall i :: p <= i < q ==> IsToken(s[i])
    ensures SkipToken(s, p) == q
    decreases q - p
  {
    if p < q {
      TokenEnds(s, p + 1, q);
    }
  }

  lemma {:induction false} LineEnds(s: string, p: nat, q: nat)
    requires p <= q < |s| && s[q] == '\n' && forall i :: p <= i < q ==> s[i] != '\0' && !IsEol(s[i])
    ensures SkipToEol(s, p) == q
    decreases q - p
  {
    if p < q {
      LineEnds(s, p + 1, q);
    }
  }

  lemma {:induction false} DigitsPrintable(n: nat)
    ensures forall i :: 0 <= i < |Digits(n)| ==> '0' <= Digits(n)[i] <= '9'
  {
    if n >= 10 {
      DigitsPrintable(n / 10);
    }
  }

  /** A line as it stands in a file: its parts and their ends. */
  lemma LineParts(s: string, p: nat, name: string, v: int)
    requires Here(s, p, Line(name, v))
    ensures var (e, f) := (p + 1 + |name|, p + 2 + |name| + |Decimal(v)|);
            && f + 1 == p + |Line(name, v)| <= |s|
            && s[p] == '#' && s[p + 1..e] == name && s[e] == '=' && Here(s, e + 1, Decimal(v)) && s[f] == '\n'
  {
    hide Decimal;
    var (e, f) := (p + 1 + |name|, p + 2 + |name| + |Decimal(v)|);
    assert Line(name, v) == "#" + (name + ("=" + (Decimal(v) + "\n")));
    HereSplit(s, p, "#", name + ("=" + (Decimal(v) + "\n")));
    HereSplit(s, p + 1, name, "=" + (Decimal(v) + "\n"));
    HereSplit(s, e, "=", Decimal(v) + "\n");
    HereSplit(s, e + 1, Decimal(v), "\n");
    assert s[p] == s[p..p + 1][0] && s[e] == s[e..e + 1][0] && s[f] == s[f..f + 1][0];
  }

  lemma NameToken(s: string, p: nat, name: string)
    requires WellNamed(name) && p + |name| < |s| && s[p..p + |name|] == name && !IsToken(s[p + |name|])
    ensures SkipToken(s, p) == p + |name| && IsAlpha(At(s, p)) && !IsSpace(At(s, p))
  {
    hide SkipToken;
    forall i | p <= i < p + |name|
      ensures s[i] == name[i - p]
    {
      assert s[i] == s[p..p + |name|][i - p];
    }
    TokenEnds(s, p, p + |name|);
  }

  lemma NameRead(s: string, p: nat, name: string, v: int)
    requires Here(s, p, Line(name, v)) && WellNamed(name)
    ensures GetName(s, p + 1) == (Some(name), p + 1 + |name|)
  {
    hide Line, SkipToken, Here;
    LineParts(s, p, name, v);
    NameToken(s, p + 1, name);
    assert name[..] == name && SkipWhitespace(s, p + 1) == p + 1;
  }

  lemma DecimalFirst(v: int)
    ensures Decimal(v) != "" && (Decimal(v)[0] == '-' || '0' <= Decimal(v)[0] <= '9')
  {
    FirstDigit(if v < 0 then -v else v);
  }

  lemma ValueRead(s: string, p: nat, name: string, v: int)
    requires Here(s, p, Line(name, v)) && IsInt(v)
    ensures p + 1 + |name| <= |s| && ValueAt(s, p + 1 + |name|) == v
  {
    hide Line, StrToL, Decimal;
    LineParts(s, p, name, v);
    var e := p + 1 + |name|;
    DecimalFirst(v);
    assert s[e + 1] == s[e + 1..e + 1 + |Decimal(v)|][0] == Decimal(v)[0];
    assert SkipToToken(s, e + 1) == e + 1;
    DecimalRead(s, e + 1, v);
    NotWord(s, e + 1, "true");
    NotWord(s, e + 1, "false");
  }

  lemma NotWord(s: string, p: nat, w: string)
    requires p < |s| && w != "" && s[p] != w[0]
    ensures !StartsWith(s, p, w)
  {
    if p + |w| <= |s| {
      assert s[p..p + |w|][0] != w[0];
    }
  }

  /** After blanks and equals signs, the words true and false stand for 1 and 0. */
  lemma WordRead(s: string, p: nat, q: nat)
    requires p <= q <= |s| && forall i :: p <= i < q ==> s[i] == ' ' || s[i] == '\t' || s[i] == '='
    ensures Here(s, q, "true") ==> ValueAt(s, p) == 1
    ensures Here(s, q, "false") ==> ValueAt(s, p) == 0
  {
    hide StrToL, SkipToToken;
    if Here(s, q, "true") {
      assert s[q] == s[q..q + 4][0] == 't';
      TokenAhead(s, p, q);
    }
    if Here(s, q, "false") {
      assert s[q] == s[q..q + 5][0] == 'f';
      TokenAhead(s, p, q);
      NotWord(s, q, "true");
    }
  }

  lemma {:induction false} TokenAhead(s: string, p: nat, q: nat)
    requires p <= q < |s| && IsAlpha(s[q]) && forall i :: p <= i < q ==> s[i] == ' ' || s[i] == '\t' || s[i] == '='
    ensures SkipToToken(s, p) == q
    decreases q - p
  {
    if p < q {
      TokenAhead(s, p + 1, q);
    }
  }

  /** A name is cut to 64 characters, and reading goes on after all of it. */
  lemma LongNameCut(s: string, p: nat, e: nat)
    requires p + 64 < e < |s| && IsAlpha(s[p]) && !IsToken(s[e]) && forall i :: p <= i < e ==> IsToken(s[i])
    ensures GetName(s, p) == (Some(s[p..p + 64]), e)
  {
    TokenEnds(s, p, e);
    assert SkipWhitespace(s, p) == p;
  }

  /** A line as older versions wrote it sets the same parameter to the same value. */
  lemma OldLineRead(params: seq<Param>, s: string, p: nat, name: string, v: int)
    requires Here(s, p, "@default " + name + " " + Decimal(v) + "\n") && WellNamed(name) && IsInt(v)
    ensures LoadLine(params, s, p) == SetValue(params, Some(name), v)
  {
    hide Decimal, SetValue, GetName, ValueAt, Here;
    var (e, tail) := (p + 9 + |name|, name + (" " + (Decimal(v) + "\n")));
    assert "@default " + name + " " + Decimal(v) + "\n" == "@default" + (" " + tail);
    HereSplit(s, p, "@default", " " + tail);
    HereSplit(s, p + 8, " ", tail);
    HereSplit(s, p + 9, name, " " + (Decimal(v) + "\n"));
    HereSplit(s, e, " ", Decimal(v) + "\n");
    HereSplit(s, e + 1, Decimal(v), "\n");
    OldParts(s, p, name, v);
    OldNameRead(s, p + 8, name);
    OldValueRead(s, e, v);
  }

  lemma OldParts(s: string, p: nat, name: string, v: int)
    requires Here(s, p, "@default") && Here(s, p + 8, " ") && Here(s, p + 9, name) && Here(s, p + 9 + |name|, " ")
    requires Here(s, p + 10 + |name| + |Decimal(v)|, "\n")
    ensures StartsWith(s, p, "@default") && s[p] == '@' && s[p + 8] == ' '
    ensures p + 9 + |name| < |s| && s[p + 9..p + 9 + |name|] == name && s[p + 9 + |name|] == ' '
    ensures At(s, p + 10 + |name| + |Decimal(v)|) == '\n'
  {
    hide Decimal;
    var (e, f) := (p + 9 + |name|, p + 10 + |name| + |Decimal(v)|);
    assert s[p] == s[p..p + 8][0] && s[p + 8] == s[p + 8..p + 9][0] && s[e] == s[e..e + 1][0] && s[f] == s[f..f + 1][0];
  }

  lemma OldNameRead(s: string, p: nat, name: string)
    requires WellNamed(name) && p + 1 + |name| < |s| && s[p] == ' ' && s[p + 1..p + 1 + |name|] == name && s[p + 1 + |name|] == ' '
    ensures GetName(s, p) == (Some(name), p + 1 + |name|)
  {
    hide SkipToken;
    NameToken(s, p + 1, name);
    assert SkipWhitespace(s, p) == SkipWhitespace(s, p + 1) == p + 1;
  }

  lemma OldValueRead(s: string, e: nat, v: int)
    requires e < |s| && s[e] == ' ' && Here(s, e + 1, Decimal(v)) && At(s, e + 1 + |Decimal(v)|) == '\n' && IsInt(v)
    ensures ValueAt(s, e) == v
  {
    hide StrToL, Decimal;
    DecimalFirst(v);
    assert s[e + 1] == s[e + 1..e + 1 + |Decimal(v)|][0] == Decimal(v)[0];
    assert SkipToToken(s, e) == SkipToToken(s, e + 1) == e + 1;
    DecimalRead(s, e + 1, v);
    NotWord(s, e + 1, "true");
    NotWord(s, e + 1, "false");
  }

  /** A line ends with a line feed, a carriage return, or both in this order. */
  lemma {:induction false} LineEndSkipped(s: string, p: nat, q: nat)
    requires p <= q < |s| && (s[q] == '\n' || s[q] == '\r')
    requires forall i :: p <= i < q ==> s[i] != '\0' && s[i] != '\n' && s[i] != '\r'
    ensures SkipEol(s, p) == if s[q] == '\r' && q + 1 < |s| && s[q + 1] == '\n' then q + 2 else q + 1
    decreases q - p
  {
    if p < q {
      LineEndSkipped(s, p + 1, q);
    }
  }

  lemma LineSkipped(s: string, p: nat, name: string, v: int)
    requires Here(s, p, Line(name, v)) && WellNamed(name)
    ensures SkipEol(s, p) == p + |Line(name, v)|
  {
    LineParts(s, p, name, v);
    var (e, f, d) := (p + 1 + |name|, p + 2 + |name| + |Decimal(v)|, Decimal(v));
    DigitsPrintable(if v < 0 then -v else v);
    hide Line, Digits;
    assert forall i :: 0 <= i < |d| ==> d[i] != '\0' && !IsEol(d[i]);
    forall i | p <= i < f
      ensures s[i] != '\0' && !IsEol(s[i])
    {
      if p < i < e {
        assert s[i] == s[p + 1..e][i - (p + 1)];
      } else if i > e {
        assert s[i] == s[e + 1..e + 1 + |d|][i - (e + 1)];
      }
    }
    LineEnds(s, p, f);
  }

  // ---- a file -------------------------------------------------------------------------------------

  /** Every saved parameter is one of these. */
  ghost predicate AllKnown(params: seq<Param>, saved: seq<Param>) {
    forall i :: 0 <= i < |saved| && saved[i].name.Some? ==> Known(params, saved[i].name)
  }

  /** The parameters with the saved values, set one after the other. */
  ghost function Apply(params: seq<Param>, saved: seq<Param>): (r: seq<Param>)
    ensures |r| == |params|
    decreases |saved|
  {
    if saved == [] then params
    else Apply(if saved[0].name.Some? then SetValue(params, saved[0].name, saved[0].val) else params, saved[1..])
  }

  /** The first scan accepts a saved file exactly when it knows every name in it. */
  lemma {:induction false} ScanText(params: seq<Param>, saved: seq<Param>, s: string, p: nat)
    requires p <= |s| && s[p..] == Text(saved) && forall i :: 0 <= i < |saved| ==> Saveable(saved[i])
    ensures Scan(params, s, p) <==> AllKnown(params, saved)
    decreases |saved|
  {
    hide Scan, Known, Line, AllKnown;
    if saved == [] {
      NothingLeft(params, s, p);
    } else {
      var x := saved[0];
      KnownSplit(params, saved);
      if x.name.Some? {
        FirstLine(saved, s, p);
        ScanLine(params, x.name.value, x.val, s, p);
        ScanText(params, saved[1..], s, p + |Line(x.name.value, x.val)|);
      } else {
        ScanText(params, saved[1..], s, p);
      }
    }
  }

  lemma NothingLeft(params: seq<Param>, s: string, p: nat)
    requires p <= |s| && s[p..] == Text([])
    ensures Scan(params, s, p) && AllKnown(params, []) && LoadLines(params, s, p) == params
  {
  }

  lemma KnownSplit(params: seq<Param>, saved: seq<Param>)
    requires saved != []
    ensures AllKnown(params, saved) <==>
      (saved[0].name.Some? ==> Known(params, saved[0].name)) && AllKnown(params, saved[1..])
  {
    hide Known;
    if AllKnown(params, saved[1..]) {
      forall i | 1 <= i < |saved| && saved[i].name.Some?
        ensures Known(params, saved[i].name)
      {
        assert saved[i] == saved[1..][i - 1];
      }
    }
  }

  lemma FirstLine(saved: seq<Param>, s: string, p: nat)
    requires saved != [] && saved[0].name.Some? && p <= |s| && s[p..] == Text(saved)
    ensures var w := Line(saved[0].name.value, saved[0].val);
            Here(s, p, w) && s[p + |w|..] == Text(saved[1..])
  {
    hide Line, Text, Here;
    TextFirst(saved);
    Cut(s, p, Line(saved[0].name.value, saved[0].val), Text(saved[1..]));
  }

  lemma TextFirst(saved: seq<Param>)
    requires saved != [] && saved[0].name.Some?
    ensures Text(saved) == Line(saved[0].name.value, saved[0].val) + Text(saved[1..])
  {
    hide Line;
  }

  lemma Cut(s: string, p: nat, w: string, rest: string)
    requires p <= |s| && s[p..] == w + rest
    ensures Here(s, p, w) && s[p + |w|..] == rest
  {
    assert |s| - p == |w| + |rest|;
    assert s[p..p + |w|] == s[p..][..|w|] == w;
    assert s[p + |w|..] == s[p..][|w|..] == rest;
  }

  /** The line that starts at p, and where the next one does. */
  lemma LineIs(s: string, p: nat, name: string, v: int)
    requires Here(s, p, Line(name, v)) && WellNamed(name) && IsInt(v)
    ensures p < |s| && s[p] == '#' && SkipWhitespace(s, p) == p && SkipEol(s, p) == p + |Line(name, v)|
    ensures GetName(s, p + 1) == (Some(name), p + 1 + |name|) && ValueAt(s, p + 1 + |name|) == v
    ensures !StartsWith(s, p, "@param") && !StartsWith(s, p, "@default")
  {
    LineParts(s, p, name, v);
    NameRead(s, p, name, v);
    ValueRead(s, p, name, v);
    LineSkipped(s, p, name, v);
    NotWord(s, p, "@param");
    NotWord(s, p, "@default");
  }

  lemma ScanLine(params: seq<Param>, name: string, v: int, s: string, p: nat)
    requires Here(s, p, Line(name, v)) && WellNamed(name) && IsInt(v)
    ensures Scan(params, s, p) <==> Known(params, Some(name)) && Scan(params, s, p + |Line(name, v)|)
  {
    hide Line, Known, GetName, ValueAt, SkipEol;
    LineIs(s, p, name, v);
  }

  lemma LoadOne(params: seq<Param>, name: string, v: int, s: string, p: nat)
    requires Here(s, p, Line(name, v)) && WellNamed(name) && IsInt(v)
    ensures LoadLines(params, s, p) == LoadLines(SetValue(params, Some(name), v), s, p + |Line(name, v)|)
  {
    hide Line, SetValue, GetName, ValueAt, SkipEol;
    LineIs(s, p, name, v);
  }

  lemma {:induction false} LoadText(params: seq<Param>, saved: seq<Param>, s: string, p: nat)
    requires p <= |s| && s[p..] == Text(saved) && forall i :: 0 <= i < |saved| ==> Saveable(saved[i])
    ensures LoadLines(params, s, p) == Apply(params, saved)
    decreases |saved|
  {
    hide LoadLines, Line, SetValue;
    if saved == [] {
      NothingLeft(params, s, p);
    } else {
      var x := saved[0];
      if x.name.Some? {
        FirstLine(saved, s, p);
        LoadOne(params, x.name.value, x.val, s, p);
        LoadText(SetValue(params, x.name, x.val), saved[1..], s, p + |Line(x.name.value, x.val)|);
      } else {
        LoadText(params, saved[1..], s, p);
      }
    }
  }

  /** No two parameters have the same name. */
  ghost predicate Distinct(params: seq<Param>) {
    forall i, j :: 0 <= i < j < |params| && params[i].name.Some? ==> params[i].name != params[j].name
  }

  /** The saved value of a name, if there is one. */
  ghost predicate Gives(saved: seq<Param>, name: Option<string>, v: int) {
    name.Some? && exists i :: 0 <= i < |saved| && saved[i].name == name && saved[i].val == v
  }

  ghost predicate Names(saved: seq<Param>, name: Option<string>) {
    name.Some? && exists i :: 0 <= i < |saved| && saved[i].name == name
  }

  lemma FindDistinct(params: seq<Param>, i: nat)
    requires Distinct(params) && i < |params| && params[i].name.Some?
    ensures Find(params, params[i].name.value) == i
  {
  }

  /** Setting one value changes that parameter alone. */
  lemma SetValueAt(params: seq<Param>, name: Option<string>, v: int, i: nat)
    requires Distinct(params) && i < |params|
    ensures SetValue(params, name, v)[i] ==
      if name.Some? && params[i].name == name then params[i].(val := v, oldVal := v) else params[i]
    ensures Distinct(SetValue(params, name, v))
  {
    if params[i].name.Some? {
      FindDistinct(params, i);
    }
    hide Distinct;
    SameDistinct(params, SetValue(params, name, v));
  }

  lemma SameDistinct(a: seq<Param>, b: seq<Param>)
    requires Distinct(a) && |a| == |b| && forall i :: 0 <= i < |a| ==> a[i].name == b[i].name
    ensures Distinct(b)
  {
  }

  lemma {:induction false} ApplyAt(params: seq<Param>, saved: seq<Param>, i: nat)
    requires Distinct(params) && Distinct(saved) && i < |params|
    ensures var (x, y) := (params[i], Apply(params, saved)[i]);
            if Names(saved, x.name) then y.name == x.name && y.val == y.oldVal && Gives(saved, x.name, y.val)
            else y == x
    decreases |saved|
  {
    hide SetValue;
    if saved != [] {
      var s0 := saved[0];
      assert Distinct(saved[1..]);
      var next := if s0.name.Some? then SetValue(params, s0.name, s0.val) else params;
      SetValueAt(params, s0.name, s0.val, i);
      ApplyAt(next, saved[1..], i);
      hide Apply, Distinct;
      if s0.name.Some? && s0.name == params[i].name {
        FirstNamed(saved);
        assert saved[0].name == params[i].name && saved[0].val == s0.val;
      } else {
        RestNames(saved, params[i].name, Apply(params, saved)[i].val);
      }
    }
  }

  lemma FirstNamed(saved: seq<Param>)
    requires Distinct(saved) && saved != [] && saved[0].name.Some?
    ensures !Names(saved[1..], saved[0].name)
  {
  }

  lemma RestNames(saved: seq<Param>, name: Option<string>, v: int)
    requires saved != [] && (name.None? || saved[0].name != name)
    ensures Names(saved, name) == Names(saved[1..], name) && Gives(saved, name, v) == Gives(saved[1..], name, v)
  {
    var rest := saved[1..];
    if name.Some? {
      if i :| 0 <= i < |saved| && saved[i].name == name {
        assert rest[i - 1].name == name;
      }
      if i :| 0 <= i < |saved| && saved[i].name == name && saved[i].val == v {
        assert rest[i - 1].name == name && rest[i - 1].val == v;
      }
      if i :| 0 <= i < |rest| && rest[i].name == name {
        assert saved[i + 1].name == name;
      }
      if i :| 0 <= i < |rest| && rest[i].name == name && rest[i].val == v {
        assert saved[i + 1].name == name && saved[i + 1].val == v;
      }
    }
  }

  /**
   Loading the file that was saved from some parameters into the parameters of a script: when
   all the names are known, each gets its saved value; when one is not, nothing changes.
   */
  lemma LoadSaved(params: seq<Param>, saved: seq<Param>, i: nat)
    requires Distinct(params) && Distinct(saved) && i < |params|
    requires forall k :: 0 <= k < |saved| ==> Saveable(saved[k])
    ensures var (x, y) := (params[i], Loaded(params, Text(saved))[i]);
            if AllKnown(params, saved) && Names(saved, x.name)
            then y.name == x.name && y.val == y.oldVal && Gives(saved, x.name, y.val)
            else y == x
  {
    hide Scan, LoadLines, AllKnown, Apply, Names, Gives, Distinct, Saveable;
    var s := Text(saved);
    assert s[0..] == s;
    ScanText(params, saved, s, 0);
    if AllKnown(params, saved) {
      LoadText(params, saved, s, 0);
      ApplyAt(params, saved, i);
    }
  }

  /** q is where the first character that is not blank stands, on some line from p on. */
  ghost predicate LineAt(s: string, p: nat, q: nat)
    requires p <= |s|
    decreases |s| - p
  {
    At(s, p) != '\0' &&
    (var w := SkipWhitespace(s, p);
     q == w || (At(s, w) != '\0' && LineAt(s, SkipEol(s, w), q)))
  }

  /** The scan accepts a file exactly when every line of it passes. */
  lemma {:induction false} ScanExactly(params: seq<Param>, s: string, p: nat)
    requires p <= |s|
    ensures Scan(params, s, p) <==> forall q: nat :: LineAt(s, p, q) && q <= |s| ==> LineOk(params, s, q)
    decreases |s| - p
  {
    hide LineOk, SkipWhitespace, SkipEol;
    if At(s, p) != '\0' {
      var w := SkipWhitespace(s, p);
      assert LineAt(s, p, w);
      if At(s, w) != '\0' {
        ScanExactly(params, s, SkipEol(s, w));
        assert forall q: nat :: LineAt(s, SkipEol(s, w), q) ==> LineAt(s, p, q);
      }
    }
  }

  /** A parameter that the script does not know, on any line of a file, keeps the whole file out. */
  lemma UnknownKeepsOut(params: seq<Param>, s: string, q: nat)
    requires LineAt(s, 0, q) && q <= |s|
    requires || (At(s, q) == '#' && !Known(params, GetName(s, q + 1).0))
             || (StartsWith(s, q, "@param") && !Known(params, GetName(s, q + 6).0))
    ensures Loaded(params, s) == params
  {
    hide Known, GetName, LineAt, Scan;
    ScanExactly(params, s, 0);
    if At(s, q) == '#' {
      NotWord(s, q, "@param");
    }
    assert !LineOk(params, s, q);
  }
}
