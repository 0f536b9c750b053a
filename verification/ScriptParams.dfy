/** The parameters of the loaded script, and the loops that save and load them. */
module ScriptParams {
  import opened Options
  import P = ParamSpec

  class ScriptParams {
    /** The linked list of parameters, in order. */
    var params: seq<P.Param>

    constructor (params: seq<P.Param>)
      ensures this.params == params
    {
      this.params := params;
    }

    method SkipWhitespace(s: string, p: nat) returns (r: nat)
      requires p <= |s|
      ensures r == P.SkipWhitespace(s, p)
    {
      r := p;
      while P.IsSpace(P.At(s, r))
        invariant r <= |s| && P.SkipWhitespace(s, p) == P.SkipWhitespace(s, r)
        decreases |s| - r
      {
        r := r + 1;
      }
    }

    method SkipToToken(s: string, p: nat) returns (r: nat)
      requires p <= |s|
      ensures r == P.SkipToToken(s, p)
    {
      r := p;
      while P.IsSpace(P.At(s, r)) || P.At(s, r) == '='
        invariant r <= |s| && P.SkipToToken(s, p) == P.SkipToToken(s, r)
        decreases |s| - r
      {
        r := r + 1;
      }
    }

    method SkipToken(s: string, p: nat) returns (r: nat)
      requires p <= |s|
      ensures r == P.SkipToken(s, p)
    {
      r := p;
      while P.IsToken(P.At(s, r))
        invariant r <= |s| && P.SkipToken(s, p) == P.SkipToken(s, r)
        decreases |s| - r
      {
        r := r + 1;
      }
    }

    method SkipToEol(s: string, p: nat) returns (r: nat)
      requires p <= |s|
      ensures r == P.SkipToEol(s, p)
    {
      r := p;
      while P.At(s, r) != '\0' && !P.IsEol(P.At(s, r))
        invariant r <= |s| && P.SkipToEol(s, p) == P.SkipToEol(s, r)
        decreases |s| - r
      {
        r := r + 1;
      }
    }

    method SkipEol(s: string, p: nat) returns (r: nat)
      requires p <= |s|
      ensures r == P.SkipEol(s, p)
    {
      r := SkipToEol(s, p);
      if P.At(s, r) == '\r' {
        r := r + 1;
      }
      if P.At(s, r) == '\n' {
        r := r + 1;
      }
    }

    /** The list is walked until a parameter of this name turns up. */
    method FindParam(name: string) returns (i: nat)
      ensures i == P.Find(params, name)
    {
      i := 0;
      while i < |params| && params[i].name != Some(name)
        invariant i <= |params| && P.Find(params, name) == i + P.Find(params[i..], name)
      {
        i := i + 1;
      }
    }

    /** The parameter named at p, or the end of the list, and the position after the name. */
    method GetName(s: string, p: nat) returns (i: nat, r: nat)
      requires p <= |s|
      ensures r == P.GetName(s, p).1
      ensures i <= |params| && (i < |params| <==> P.Known(params, P.GetName(s, p).0))
      ensures i < |params| ==> i == P.Find(params, P.GetName(s, p).0.value)
    {
      i := |params|;
      r := SkipWhitespace(s, p);
      if P.IsAlpha(P.At(s, r)) {
        var e := SkipToken(s, r);
        var n := if e - r <= P.MAX_PARAM_NAME_LEN then e - r else P.MAX_PARAM_NAME_LEN;
        i := FindParam(s[r..r + n]);
        r := e;
      }
    }

    method CheckParam(s: string, p: nat) returns (ok: bool)
      requires p <= |s|
      ensures ok == P.Known(params, P.GetName(s, p).0)
    {
      var i, r := GetName(s, p);
      ok := i < |params|;
    }

    /** The value at p becomes that of parameter i, if there is one. */
    method GetDefault(i: nat, s: string, p: nat)
      requires p <= |s| && i <= |params|
      modifies this
      ensures params == if i == |old(params)| then old(params)
                        else old(params)[i := old(params)[i].(val := P.ValueAt(s, p), oldVal := P.ValueAt(s, p))]
    {
      var q := SkipToToken(s, p);
      if i < |params| {
        var v: int;
        if P.StartsWith(s, q, "true") {
          v := 1;
        } else if P.StartsWith(s, q, "false") {
          v := 0;
        } else {
          v := P.StrToL(s, q);
        }
        params := params[i := params[i].(val := v)];
        params := params[i := params[i].(oldVal := params[i].val)];
      }
    }

    method ProcessDefault(s: string, p: nat)
      requires p <= |s|
      modifies this
      ensures params == P.SetValue(old(params), P.GetName(s, p).0, P.ValueAt(s, P.GetName(s, p).1))
    {
      var i, r := GetName(s, p);
      GetDefault(i, s, r);
    }

    method CheckLine(s: string, p: nat) returns (valid: bool)
      requires p <= |s|
      ensures valid == P.LineOk(params, s, p)
    {
      valid := true;
      if P.At(s, p) == '@' {
        if P.StartsWith(s, p, "@param") {
          valid := CheckParam(s, p + 6);
        }
      } else if P.At(s, p) == '#' {
        valid := CheckParam(s, p + 1);
      }
    }

    method LoadLine(s: string, p: nat)
      requires p <= |s|
      modifies this
      ensures params == P.LoadLine(old(params), s, p)
    {
      hide P.SetValue, P.ValueAt, P.GetName;
      if P.At(s, p) == '@' {
        if P.StartsWith(s, p, "@default") {
          ProcessDefault(s, p + 8);
        }
      } else if P.At(s, p) == '#' {
        ProcessDefault(s, p + 1);
      }
    }

    /** The first pass over a file. */
    method CheckFile(s: string) returns (valid: bool)
      ensures valid == P.Scan(params, s, 0)
    {
      hide P.LineOk, P.SkipEol;
      var p := 0;
      valid := true;
      while P.At(s, p) != '\0' && valid
        invariant p <= |s| && P.Scan(params, s, 0) == (valid && P.Scan(params, s, p))
        decreases |s| - p
      {
        p := SkipWhitespace(s, p);
        valid := CheckLine(s, p);
        p := SkipEol(s, p);
      }
    }

    /** Loads a file; returns whether it was valid. */
    method LoadParamsValues(s: string) returns (valid: bool)
      modifies this
      ensures params == P.Loaded(old(params), s) && valid == P.Scan(old(params), s, 0)
    {
      hide P.LoadLine, P.Scan, P.SkipEol;
      valid := CheckFile(s);
      if valid {
        var p := 0;
        while P.At(s, p) != '\0'
          invariant p <= |s| && P.LoadLines(old(params), s, 0) == P.LoadLines(params, s, p)
          decreases |s| - p
        {
          p := SkipWhitespace(s, p);
          LoadLine(s, p);
          p := SkipEol(s, p);
        }
      }
    }

    /** The file that is written: one line for each named parameter. */
    method DoSaveParamFile() returns (s: string)
      ensures s == P.Text(params)
    {
      hide P.Line;
      s := "";
      for i := 0 to |params|
        invariant P.Text(params) == s + P.Text(params[i..])
      {
        assert params[i..][0] == params[i] && params[i..][1..] == params[i + 1..];
        if params[i].name.Some? {
          ghost var (was, rest) := (s, P.Text(params[i + 1..]));
          var line := P.Line(params[i].name.value, params[i].val);
          s := s + line;
          assert was + (line + rest) == s + rest;
        }
      }
    }
  }
}
