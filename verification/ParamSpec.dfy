/** Script parameter files: how a line is read, and what the saved form of a parameter is. */
module ParamSpec {
  import opened Arithmetic
  import opened Options

  const MAX_PARAM_NAME_LEN := 64

  /** A script parameter; a subtitle has no name. */
  datatype Param = Param(name: Option<string>, val: int, oldVal: int)

  // ---- reading characters -----------------------------------------------------------------------

  /** The character at position p of a terminated text. */
  function At(s: string, p: nat): char {
    if p < |s| then s[p] else '\0'
  }

  predicate IsSpace(c: char) { c == ' ' || c == '\t' }
  predicate IsEol(c: char) { c == '\n' || c == '\r' }
  predicate IsAlpha(c: char) { 'a' <= c <= 'z' || 'A' <= c <= 'Z' }
  predicate IsToken(c: char) { c != '\0' && !IsEol(c) && !IsSpace(c) && c != '=' }

  function SkipWhitespace(s: string, p: nat): (r: nat)
    requires p <= |s|
    ensures p <= r <= |s|
    decreases |s| - p
  {
    if IsSpace(At(s, p)) then SkipWhitespace(s, p + 1) else p
  }

  function SkipToToken(s: string, p: nat): (r: nat)
    requires p <= |s|
    ensures p <= r <= |s|
    decreases |s| - p
  {
    if IsSpace(At(s, p)) || At(s, p) == '=' then SkipToToken(s, p + 1) else p
  }

  function SkipToken(s: string, p: nat): (r: nat)
    requires p <= |s|
    ensures p <= r <= |s|
    decreases |s| - p
  {
    if IsToken(At(s, p)) then SkipToken(s, p + 1) else p
  }

  function SkipToEol(s: string, p: nat): (r: nat)
    requires p <= |s|
    ensures p <= r <= |s| && (At(s, r) == '\0' || IsEol(At(s, r)))
    decreases |s| - p
  {
    if At(s, p) != '\0' && !IsEol(At(s, p)) then SkipToEol(s, p + 1) else p
  }

  function SkipEol(s: string, p: nat): (r: nat)
    requires p <= |s|
    ensures p <= r <= |s| && (p == r <==> At(s, p) == '\0')
  {
    var e := SkipToEol(s, p);
    var f := if At(s, e) == '\r' then e + 1 else e;
    if At(s, f) == '\n' then f + 1 else f
  }

  predicate StartsWith(s: string, p: nat, w: string) {
    p + |w| <= |s| && s[p..p + |w|] == w
  }

  // ---- numbers --------------------------------------------------------------------------------

  function Digit(c: char): int {
    if '0' <= c <= '9' then c as int - '0' as int
    else if 'a' <= c <= 'z' then c as int - 'a' as int + 10
    else if 'A' <= c <= 'Z' then c as int - 'A' as int + 10
    else 99
  }

  function SkipBlank(s: string, p: nat): (r: nat)
    requires p <= |s|
    ensures p <= r <= |s|
    decreases |s| - p
  {
    if At(s, p) == ' ' || '\t' <= At(s, p) <= '\r' then SkipBlank(s, p + 1) else p
  }

  /** The number whose digits follow, after the digits that make up acc. */
  function Accumulate(s: string, p: nat, base: nat, acc: nat): nat
    requires p <= |s|
    decreases |s| - p
  {
    if p < |s| && Digit(s[p]) < base then Accumulate(s, p + 1, base, acc * base + Digit(s[p])) else acc
  }

  function Clamp(n: int): int {
    if n < -0x8000_0000 then -0x8000_0000 else if n > 0x7fff_ffff then 0x7fff_ffff else n
  }

  /** strtol with base 0 and a 32-bit long. */
  function StrToL(s: string, p: nat): int
    requires p <= |s|
  {
    var q := SkipBlank(s, p);
    var d := if At(s, q) == '-' || At(s, q) == '+' then q + 1 else q;
    var n :=
      if At(s, d) == '0' && At(s, d + 1) in {'x', 'X'} && Digit(At(s, d + 2)) < 16 then Accumulate(s, d + 2, 16, 0)
      else Accumulate(s, d, if At(s, d) == '0' then 8 else 10, 0);
    Clamp(if At(s, q) == '-' then -n else n)
  }

  // ---- lines ----------------------------------------------------------------------------------

  /** The name at p, cut to the longest a name may be, and the position after it. */
  function GetName(s: string, p: nat): (r: (Option<string>, nat))
    requires p <= |s|
    ensures p <= r.1 <= |s|
  {
    var q := SkipWhitespace(s, p);
    if IsAlpha(At(s, q)) then
      var e := SkipToken(s, q);
      (Some(s[q..if e - q <= MAX_PARAM_NAME_LEN then e else q + MAX_PARAM_NAME_LEN]), e)
    else (None, q)
  }

  /** The first parameter with this name, or the end of the list. */
  function Find(params: seq<Param>, name: string): (r: nat)
    ensures r <= |params|
    ensures r < |params| ==> params[r].name == Some(name)
    ensures forall i :: 0 <= i < r ==> params[i].name != Some(name)
  {
    if params == [] || params[0].name == Some(name) then 0 else 1 + Find(params[1..], name)
  }

  predicate Known(params: seq<Param>, name: Option<string>) {
    name.Some? && Find(params, name.value) < |params|
  }

  /** Whether the line at p passes the first scan. */
  predicate LineOk(params: seq<Param>, s: string, p: nat)
    requires p <= |s|
  {
    if StartsWith(s, p, "@param") then Known(params, GetName(s, p + 6).0)
    else At(s, p) == '#' ==> Known(params, GetName(s, p + 1).0)
  }

  predicate Scan(params: seq<Param>, s: string, p: nat)
    requires p <= |s|
    decreases |s| - p
  {
    At(s, p) == '\0' ||
    (var q := SkipWhitespace(s, p);
     LineOk(params, s, q) && (At(s, q) == '\0' || Scan(params, s, SkipEol(s, q))))
  }

  /** The value written at p. */
  function ValueAt(s: string, p: nat): int
    requires p <= |s|
  {
    var q := SkipToToken(s, p);
    if StartsWith(s, q, "true") then 1
    else if StartsWith(s, q, "false") then 0
    else StrToL(s, q)
  }

  function SetValue(params: seq<Param>, name: Option<string>, v: int): (r: seq<Param>)
    ensures |r| == |params|
  {
    if Known(params, name) then
      var i := Find(params, name.value);
      params[i := params[i].(val := v, oldVal := v)]
    else params
  }

  /** What the second pass does with the line at p. */
  function LoadLine(params: seq<Param>, s: string, p: nat): (r: seq<Param>)
    requires p <= |s|
    ensures |r| == |params|
  {
    if StartsWith(s, p, "@default") || At(s, p) == '#' then
      var (name, e) := GetName(s, if At(s, p) == '#' then p + 1 else p + 8);
      SetValue(params, name, ValueAt(s, e))
    else params
  }

  function LoadLines(params: seq<Param>, s: string, p: nat): (r: seq<Param>)
    requires p <= |s|
    ensures |r| == |params|
    decreases |s| - p
  {
    if At(s, p) == '\0' then params
    else
      var q := SkipWhitespace(s, p);
      var more := LoadLine(params, s, q);
      if At(s, q) == '\0' then more else LoadLines(more, s, SkipEol(s, q))
  }

  /** The parameters after a file has been loaded. */
  function Loaded(params: seq<Param>, s: string): seq<Param> {
    if Scan(params, s, 0) then LoadLines(params, s, 0) else params
  }

  // ---- saving ---------------------------------------------------------------------------------

  function Decimal(n: int): string {
    if n < 0 then "-" + Digits(-n) else Digits(n)
  }

  function Line(name: string, v: int): string {
    "#" + name + "=" + Decimal(v) + "\n"
  }

  /** The file of the parameters; subtitles are not saved. */
  function Text(params: seq<Param>): string {
    if params == [] then ""
    else (if params[0].name.Some? then Line(params[0].name.value, params[0].val) else "") + Text(params[1..])
  }
}
