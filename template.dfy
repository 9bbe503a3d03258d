/**
 * `prepare_cmd`: a raw command is formatted with Python's `%` operator against
 * the mapping of workflow variables, then every `_PERC_` becomes `%`.
 *
 * The format grammar modelled is literal text, `%%` (a percent sign) and
 * `%(name)s` (the variable's value) with a name free of parentheses. Any
 * other use of `%` is outside the model and reported as `Unsupported`.
 */
module Template {
  import opened Wrappers
  import Text

  datatype ExpandError =
    | MissingVariable(name: string)  // the `KeyError` that `prepare_cmd` turns into a workflow failure
    | Unsupported                    // a `%` form outside the modelled grammar

  /** The escape that becomes a literal `%` after substitution. */
  const PercToken: string := "_PERC_"

  /** Puts `s` in front of a successful result; an error passes through. */
  function Prepend(s: string, r: Result<string, ExpandError>): Result<string, ExpandError> {
    if r.Ok? then Ok(s + r.value) else r
  }

  lemma PrependPrepend(a: string, b: string, r: Result<string, ExpandError>)
    ensures Prepend(a, Prepend(b, r)) == Prepend(a + b, r)
  {
    if r.Ok? {
      assert a + (b + r.value) == (a + b) + r.value;
    }
  }

  /** The first `)` at or after `from`, which closes a `%(` key. */
  function FindClose(t: string, from: nat): (r: Option<nat>)
    requires from <= |t|
    ensures r.Some? ==> from <= r.value < |t| && t[r.value] == ')' && ')' !in t[from..r.value]
    ensures r.None? ==> ')' !in t[from..]
    decreases |t| - from
  {
    if from == |t| then None
    else if t[from] == ')' then Some(from)
    else
      var r := FindClose(t, from + 1);
      assert t[from..] == [t[from]] + t[from + 1..];
      if r.Some? then
        assert t[from..r.value] == [t[from]] + t[from + 1..r.value];
        r
      else r
  }

  /**
   * `t % vars` for a mapping `vars`, scanning left to right so that the first
   * problem decides the error. The key of `%(name)` is looked up as soon as it
   * is read, before the conversion character is examined, so a missing name
   * is reported even where the conversion is not `s`.
   */
  function Format(t: string, vars: map<string, string>): (r: Result<string, ExpandError>)
    ensures '%' !in t ==> r == Ok(t)
    ensures r.Err? && r.error.MissingVariable? ==> r.error.name !in vars
    decreases |t|
  {
    if t == [] then Ok([])
    else if t[0] != '%' then
      assert t == [t[0]] + t[1..];
      Prepend([t[0]], Format(t[1..], vars))
    else if |t| >= 2 && t[1] == '%' then Prepend("%", Format(t[2..], vars))
    else if |t| >= 2 && t[1] == '(' then
      match FindClose(t, 2)
      case None => Err(Unsupported)
      case Some(k) =>
        var name := t[2..k];
        if '(' in name then Err(Unsupported)
        else if name !in vars then Err(MissingVariable(name))
        else if k + 1 < |t| && t[k + 1] == 's' then Prepend(vars[name], Format(t[k + 2..], vars))
        else Err(Unsupported)
    else Err(Unsupported)
  }

  /** `prepare_cmd(raw_cmd, convenience_variables)`. */
  function PrepareCmd(raw: string, vars: map<string, string>): (r: Result<string, ExpandError>)
    ensures r.Ok? <==> Format(raw, vars).Ok?
    ensures r.Err? ==> r.error == Format(raw, vars).error
    ensures r.Ok? ==> Text.Absent(r.value, PercToken)
    ensures '%' !in raw && Text.Absent(raw, PercToken) ==> r == Ok(raw)
  {
    match Format(raw, vars)
    case Ok(s) =>
      Text.ReplaceLeavesNoToken(s, PercToken, '%');
      RestoreIdentity(s);
      Ok(Text.Replace(s, PercToken, "%"))
    case Err(e) => Err(e)
  }

  lemma RestoreIdentity(s: string)
    ensures Text.Absent(s, PercToken) ==> Text.Replace(s, PercToken, "%") == s
  {
    if Text.Absent(s, PercToken) {
      Text.ReplaceAbsent(s, PercToken, "%");
    }
  }

  /** A template written as pieces: literal text and variable references. */
  datatype Piece = Lit(text: string) | Ref(name: string)

  /** A name the grammar can carry inside `%(...)`. */
  predicate ValidName(n: string) {
    '(' !in n && ')' !in n
  }

  predicate ValidPieces(ps: seq<Piece>) {
    forall i :: 0 <= i < |ps| && ps[i].Ref? ==> ValidName(ps[i].name)
  }

  /** Literal text as a template: every `%` doubled. */
  function Escape(s: string): string
    decreases |s|
  {
    if s == [] then [] else (if s[0] == '%' then "%%" else [s[0]]) + Escape(s[1..])
  }

  /** The template that spells out the pieces. */
  function Unparse(ps: seq<Piece>): string
    decreases |ps|
  {
    if ps == [] then []
    else (match ps[0] case Lit(s) => Escape(s) case Ref(n) => "%(" + n + ")s") + Unparse(ps[1..])
  }

  /** The reference meaning of pieces: text as is, each name replaced by its value, the first undefined name an error. */
  function Render(ps: seq<Piece>, vars: map<string, string>): Result<string, ExpandError>
    decreases |ps|
  {
    if ps == [] then Ok([])
    else match ps[0]
      case Lit(s) => Prepend(s, Render(ps[1..], vars))
      case Ref(n) => if n in vars then Prepend(vars[n], Render(ps[1..], vars)) else Err(MissingVariable(n))
  }

  /** Escaped text formats back to itself, whatever follows it. */
  lemma {:induction false} FormatEscape(s: string, rest: string, vars: map<string, string>)
    ensures Format(Escape(s) + rest, vars) == Prepend(s, Format(rest, vars))
    decreases |s|
  {
    if s == [] {
      assert Escape(s) + rest == rest;
      var r := Format(rest, vars);
      assert r.Ok? ==> [] + r.value == r.value;
    } else {
      var tail := Escape(s[1..]) + rest;
      assert Escape(s) + rest == (if s[0] == '%' then "%%" else [s[0]]) + tail;
      FormatEscapeChar(s[0], tail, vars);
      FormatEscape(s[1..], rest, vars);
      PrependPrepend([s[0]], s[1..], Format(rest, vars));
      assert [s[0]] + s[1..] == s;
    }
  }

  /** One escaped character formats back to itself. */
  lemma FormatEscapeChar(c: char, tail: string, vars: map<string, string>)
    ensures Format((if c == '%' then "%%" else [c]) + tail, vars) == Prepend([c], Format(tail, vars))
  {
    var t := (if c == '%' then "%%" else [c]) + tail;
    if c == '%' {
      assert t[0] == '%' && t[1] == '%' && t[2..] == tail;
    } else {
      assert t[0] != '%' && t[1..] == tail;
    }
  }

  /** `%(name)s` formats to the name's value, or fails naming it. */
  lemma FormatRef(n: string, rest: string, vars: map<string, string>)
    requires ValidName(n)
    ensures Format("%(" + n + ")s" + rest, vars)
            == if n in vars then Prepend(vars[n], Format(rest, vars)) else Err(MissingVariable(n))
  {
    var t := "%(" + n + ")s" + rest;
    var k := 2 + |n|;
    assert t[2..k] == n && t[k] == ')' && t[k + 1] == 's' && t[k + 2..] == rest;
    FindCloseAt(t, 2, k);
  }

  /** The scan for `)` stops at the first one. */
  lemma {:induction false} FindCloseAt(t: string, from: nat, k: nat)
    requires from <= k < |t| && t[k] == ')' && ')' !in t[from..k]
    ensures FindClose(t, from) == Some(k)
    decreases k - from
  {
    if from < k {
      assert t[from] in t[from..k];
      assert t[from + 1..k] == t[from..k][1..];
      FindCloseAt(t, from + 1, k);
    }
  }

  /** Formatting a spelled-out template computes the reference meaning of its pieces. */
  lemma {:induction false} FormatUnparse(ps: seq<Piece>, vars: map<string, string>)
    requires ValidPieces(ps)
    ensures Format(Unparse(ps), vars) == Render(ps, vars)
    decreases |ps|
  {
    if ps == [] {
    } else {
      assert ValidPieces(ps[1..]) by {
        forall i | 0 <= i < |ps[1..]| && ps[1..][i].Ref? ensures ValidName(ps[1..][i].name) {
          assert ps[1..][i] == ps[i + 1];
        }
      }
      FormatUnparse(ps[1..], vars);
      match ps[0]
      case Lit(s) => FormatEscape(s, Unparse(ps[1..]), vars);
      case Ref(n) =>
        assert ValidName(ps[0].name);
        assert Unparse(ps) == "%(" + n + ")s" + Unparse(ps[1..]);
        FormatRef(n, Unparse(ps[1..]), vars);
    }
  }

  /** The pieces render exactly when every name they use is defined; otherwise the first undefined one is named. */
  lemma {:induction false} RenderDefined(ps: seq<Piece>, vars: map<string, string>)
    ensures Render(ps, vars).Ok? <==> forall i :: 0 <= i < |ps| && ps[i].Ref? ==> ps[i].name in vars
    ensures Render(ps, vars).Err? ==> exists i :: 0 <= i < |ps| && ps[i].Ref? && ps[i].name !in vars
                                                 && Render(ps, vars).error == MissingVariable(ps[i].name)
                                                 && forall k :: 0 <= k < i && ps[k].Ref? ==> ps[k].name in vars
    decreases |ps|
  {
    if ps != [] {
      RenderDefined(ps[1..], vars);
      if Render(ps, vars).Err? && !(ps[0].Ref? && ps[0].name !in vars) {
        var j :| 0 <= j < |ps[1..]| && ps[1..][j].Ref? && ps[1..][j].name !in vars
                 && Render(ps[1..], vars).error == MissingVariable(ps[1..][j].name)
                 && forall k :: 0 <= k < j && ps[1..][k].Ref? ==> ps[1..][k].name in vars;
        assert ps[j + 1] == ps[1..][j];
        forall k | 0 <= k < j + 1 && ps[k].Ref? ensures ps[k].name in vars {
          if k > 0 { assert ps[k] == ps[1..][k - 1]; }
        }
      }
      if !Render(ps, vars).Ok? {
      } else {
        forall i | 0 <= i < |ps| && ps[i].Ref? ensures ps[i].name in vars {
          if i > 0 { assert ps[i] == ps[1..][i - 1]; }
        }
      }
    }
  }

  /**
   * A template without `%` is not touched by the substitution: `prepare_cmd`
   * succeeds on it whatever the variables, and only restores `_PERC_`.
   */
  lemma PercentFreeTemplate(t: string, vars: map<string, string>)
    requires '%' !in t
    ensures PrepareCmd(t, vars) == Ok(Text.Replace(t, PercToken, "%"))
  {
  }

  /**
   * `_PERC_` written in a template comes out as `%`: text up to the first
   * `_` is copied, the token becomes `%`, and the scan goes on in the rest.
   */
  lemma EscapedPercent(a: string, b: string, vars: map<string, string>)
    requires '%' !in a && '%' !in b && '_' !in a
    ensures PrepareCmd(a + PercToken + b, vars) == Ok(a + "%" + Text.Replace(b, PercToken, "%"))
  {
    var t := a + PercToken + b;
    assert '%' !in t by {
      assert '%' !in PercToken;
    }
    PercentFreeTemplate(t, vars);
    Text.ReplaceAfterLiteral(a, PercToken, b, "%");
  }

  /** The directive `date +_PERC_Y_PERC_m` runs as `date +%Y%m`. */
  lemma DatePattern(t: string, vars: map<string, string>)
    requires t == "date +_PERC_Y_PERC_m"
    ensures PrepareCmd(t, vars) == Ok("date +%Y%m")
  {
    var a, b := "date +", "Y_PERC_m";
    DateSpelling(t, a, b);
    EscapedPercent(a, b, vars);
    RestoreYearMonth(b);
  }

  lemma DateSpelling(t: string, a: string, b: string)
    requires t == "date +_PERC_Y_PERC_m" && a == "date +" && b == "Y_PERC_m"
    ensures t == a + PercToken + b && a + "%" + "Y%m" == "date +%Y%m"
  {
  }

  lemma RestoreYearMonth(b: string)
    requires b == "Y_PERC_m"
    ensures Text.Replace(b, PercToken, "%") == "Y%m"
  {
    assert b == "Y" + PercToken + "m";
    Text.ReplaceAfterLiteral("Y", PercToken, "m", "%");
    assert Text.Replace("m", PercToken, "%") == "m" by {
      assert !Text.StartsWith("m", PercToken);
      assert "m"[1..] == [];
    }
  }

  /**
   * `_PERC_` inside a substituted value also becomes `%`: the replacement
   * runs after the substitution, over the value as well.
   */
  lemma PercentInValue(name: string, vars: map<string, string>)
    requires ValidName(name) && name in vars
    ensures PrepareCmd("%(" + name + ")s", vars) == Ok(Text.Replace(vars[name], PercToken, "%"))
  {
    FormatRef(name, [], vars);
    assert "%(" + name + ")s" + [] == "%(" + name + ")s";
    assert Format([], vars) == Ok([]);
    assert vars[name] + [] == vars[name];
    assert Format("%(" + name + ")s", vars) == Ok(vars[name]);
  }

  /**
   * `prepare_cmd` on a spelled-out template: it succeeds exactly when every
   * referenced name is defined, and then yields the substituted text with
   * `_PERC_` restored; otherwise it fails naming an undefined variable,
   * never substituting an empty string for it.
   */
  lemma PrepareCmdOfPieces(ps: seq<Piece>, vars: map<string, string>)
    requires ValidPieces(ps)
    ensures PrepareCmd(Unparse(ps), vars).Ok? <==> forall i :: 0 <= i < |ps| && ps[i].Ref? ==> ps[i].name in vars
    ensures PrepareCmd(Unparse(ps), vars) == match Render(ps, vars)
                                             case Ok(s) => Ok(Text.Replace(s, PercToken, "%"))
                                             case Err(e) => Err(e)
    ensures PrepareCmd(Unparse(ps), vars).Err? ==>
              exists i :: 0 <= i < |ps| && ps[i].Ref? && ps[i].name !in vars
                          && PrepareCmd(Unparse(ps), vars).error == MissingVariable(ps[i].name)
                          && forall k :: 0 <= k < i && ps[k].Ref? ==> ps[k].name in vars
  {
    FormatUnparse(ps, vars);
    RenderDefined(ps, vars);
  }
}
