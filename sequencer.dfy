/**
 * `get_workflow_cmd_num`: the order in which a workflow's numbered
 * directives run. From start number `S` the directives `S, S+1, ...` are
 * probed up to the first missing one; when `S > 1` the numbers listed in
 * `always_run_cmds` come first and a probed number already listed is not
 * added again; the list is sorted and an empty list is an error.
 */
module Sequencer {
  import opened Wrappers
  import Text
  import Numbers
  import opened DSConfig

  /** Why no plan can be produced. */
  datatype PlanError =
    | NoCommandsFound                 // WFConfigException("No workflow commands found.")
    | BadOverride(entry: string)      // `int(x)` raised ValueError on an `always_run_cmds` entry
    | MissingSection(section: string) // the parser's NoSectionError, which `except ConfigException` lets through

  /** `has_option(str(n))`: directive `n` is defined in the application's section. */
  predicate HasCommand(cfg: DSConfig.Config, n: int) {
    cfg.appName in cfg.sections && Numbers.Decimal(n) in cfg.sections[cfg.appName]
  }

  lemma HasCommandIsHasOption(cfg: DSConfig.Config, n: int)
    ensures HasCommand(cfg, n) == DSConfig.HasOption(cfg, Numbers.Decimal(n), None)
  {
    DSConfig.HasOptionDefaultSection(cfg, Numbers.Decimal(n));
  }

  /**
   * `[parse(x) for x in items]` where `parse` raises on the entries it maps
   * to `None`: the comprehension stops at the first such entry.
   */
  function ParseEach(items: seq<string>, parse: string -> Option<int>): Result<seq<int>, PlanError>
    decreases |items|
  {
    if items == [] then Ok([])
    else
      match parse(items[0])
      case None => Err(BadOverride(items[0]))
      case Some(v) =>
        match ParseEach(items[1..], parse)
        case Err(e) => Err(e)
        case Ok(vs) => Ok([v] + vs)
  }

  lemma {:induction false} ParseEachMeaning(items: seq<string>, parse: string -> Option<int>)
    ensures ParseEach(items, parse).Ok? <==> forall i :: 0 <= i < |items| ==> parse(items[i]).Some?
    ensures ParseEach(items, parse).Ok? ==> |ParseEach(items, parse).value| == |items|
    ensures ParseEach(items, parse).Ok? ==> forall i :: 0 <= i < |items| ==> parse(items[i]) == Some(ParseEach(items, parse).value[i])
    ensures ParseEach(items, parse).Err? ==> var e := ParseEach(items, parse).error;
              e.BadOverride? && e.entry in items && parse(e.entry) == None
    ensures ParseEach(items, parse).Err? ==>
              exists i :: 0 <= i < |items| && ParseEach(items, parse).error == BadOverride(items[i]) &&
                          parse(items[i]) == None && forall k :: 0 <= k < i ==> parse(items[k]).Some?
    decreases |items|
  {
    if items != [] {
      var tail := items[1..];
      ParseEachMeaning(tail, parse);
      assert forall i :: 1 <= i < |items| ==> items[i] == tail[i - 1];
      if parse(items[0]).Some? && ParseEach(tail, parse).Ok? {
        var vs := ParseEach(tail, parse).value;
        var r := [parse(items[0]).value] + vs;
        assert forall i :: 1 <= i < |items| ==> r[i] == vs[i - 1];
      } else if parse(items[0]).Some? {
        assert ParseEach(tail, parse).error.entry in tail;
        var j :| 0 <= j < |tail| && ParseEach(tail, parse).error == BadOverride(tail[j]) &&
                 parse(tail[j]) == None && forall k :: 0 <= k < j ==> parse(tail[k]).Some?;
        assert items[j + 1] == tail[j];
      } else {
        assert ParseEach(items, parse).error == BadOverride(items[0]);
      }
    }
  }

  /** `[int(x) for x in items]`: stops at the first entry `int` rejects. */
  function ParseAll(items: seq<string>): Result<seq<int>, PlanError> {
    ParseEach(items, Numbers.ParseInt)
  }

  /**
   * The list comprehension succeeds exactly when every entry reads as an
   * integer, and then holds those integers in order; otherwise the error
   * names the first entry `int` rejects.
   */
  lemma ParseAllMeaning(items: seq<string>)
    ensures ParseAll(items).Ok? <==> forall i :: 0 <= i < |items| ==> Numbers.ParseInt(items[i]).Some?
    ensures ParseAll(items).Ok? ==> |ParseAll(items).value| == |items|
    ensures ParseAll(items).Ok? ==> forall i :: 0 <= i < |items| ==> Numbers.ParseInt(items[i]) == Some(ParseAll(items).value[i])
    ensures ParseAll(items).Err? ==> var e := ParseAll(items).error;
              e.BadOverride? && e.entry in items && Numbers.ParseInt(e.entry) == None
    ensures ParseAll(items).Err? ==>
              exists i :: 0 <= i < |items| && ParseAll(items).error == BadOverride(items[i]) &&
                          Numbers.ParseInt(items[i]) == None && forall k :: 0 <= k < i ==> Numbers.ParseInt(items[k]).Some?
  {
    ParseEachMeaning(items, Numbers.ParseInt);
  }

  /**
   * The list the probe starts from: `always_run_cmds` read as a list of
   * integers when `S > 1`, empty when `S <= 1` or when the directive is
   * missing.
   */
  function Overrides(cfg: DSConfig.Config, start: int): (r: Result<seq<int>, PlanError>)
    ensures start <= 1 ==> r == Ok([])
    ensures start > 1 && !DSConfig.HasOption(cfg, "always_run_cmds", None) && cfg.appName in cfg.sections ==> r == Ok([])
    ensures start > 1 && DSConfig.HasOption(cfg, "always_run_cmds", None) ==>
              r == ParseAll(DSConfig.GetList(cfg.sections[cfg.appName]["always_run_cmds"]))
    ensures start > 1 && cfg.appName !in cfg.sections <==> r.Err? && r.error.MissingSection?
    ensures r.Err? && r.error.MissingSection? ==> r.error == MissingSection(cfg.appName)
  {
    if start <= 1 then Ok([])
    else
      match DSConfig.Get(cfg, "always_run_cmds", DSConfig.AsList)
      case Err(ConfigException(_)) => Ok([])
      case Err(NoSectionError(s)) => Err(MissingSection(s))
      case Ok(v) =>
        ParseAllMeaning(v.items);
        ParseAll(v.items)
  }

  /** The option names of the application's section that read as numbers `>= n`: a finite set that shrinks as the probe advances. */
  ghost function NumberedFrom(cfg: DSConfig.Config, n: int): set<string> {
    if cfg.appName in cfg.sections then AtLeast(cfg.sections[cfg.appName].Keys, n, Numbers.ParseInt) else {}
  }

  /** The names among `names` that `parse` reads as numbers `>= n`. */
  ghost function AtLeast(names: set<string>, n: int, parse: string -> Option<int>): set<string> {
    set k | k in names && parse(k).Some? && parse(k).value >= n
  }

  lemma SubsetSize(a: set<string>, b: set<string>)
    requires a <= b
    ensures |a| <= |b|
  {
    if a != {} {
      var x :| x in a;
      SubsetSize(a - {x}, b - {x});
    }
  }

  /** A name that reads as exactly `n` drops out when the bound moves past `n`. */
  lemma AtLeastShrinks(names: set<string>, n: int, parse: string -> Option<int>, d: string)
    requires d in names && parse(d) == Some(n)
    ensures |AtLeast(names, n + 1, parse)| < |AtLeast(names, n, parse)|
  {
    var before, after := AtLeast(names, n, parse), AtLeast(names, n + 1, parse);
    assert d in before;
    SubsetSize(after, before - {d});
  }

  lemma ProbeShrinks(cfg: DSConfig.Config, n: int)
    requires HasCommand(cfg, n)
    ensures |NumberedFrom(cfg, n + 1)| < |NumberedFrom(cfg, n)|
  {
    Numbers.ParseDecimal(n);
    AtLeastShrinks(cfg.sections[cfg.appName].Keys, n, Numbers.ParseInt, Numbers.Decimal(n));
  }

  /** `K`: the first number `>= n` without a directive, where the probe loop stops. */
  function ProbeEnd(cfg: DSConfig.Config, n: int): (k: int)
    ensures n <= k && !HasCommand(cfg, k)
    ensures forall i :: n <= i < k ==> HasCommand(cfg, i)
    decreases |NumberedFrom(cfg, n)|
  {
    if HasCommand(cfg, n) then
      ProbeShrinks(cfg, n);
      var k := ProbeEnd(cfg, n + 1);
      ProbeExtends(cfg, n, k);
      k
    else n
  }

  lemma ProbeExtends(cfg: DSConfig.Config, n: int, k: int)
    requires HasCommand(cfg, n)
    requires forall i :: n + 1 <= i < k ==> HasCommand(cfg, i)
    ensures forall i :: n <= i < k ==> HasCommand(cfg, i)
  {
  }

  /** The numbers the probe appends: `lo, ..., hi - 1` in order, skipping those already in `ov`. */
  function Probed(lo: int, hi: int, ov: seq<int>): (r: seq<int>)
    ensures forall x :: x in r <==> lo <= x < hi && x !in ov
    decreases hi - lo
  {
    if hi <= lo then [] else Probed(lo, hi - 1, ov) + (if hi - 1 in ov then [] else [hi - 1])
  }

  /** The probe appends in strictly ascending order. */
  lemma {:induction false} ProbedAscending(lo: int, hi: int, ov: seq<int>)
    ensures StrictlyAscending(Probed(lo, hi, ov))
    decreases hi - lo
  {
    if hi > lo {
      var p := Probed(lo, hi - 1, ov);
      var r := Probed(lo, hi, ov);
      ProbedAscending(lo, hi - 1, ov);
      forall i, j | 0 <= i < j < |r| ensures r[i] < r[j] {
        assert r[i] == p[i];
        if j >= |p| {
          assert r[j] == hi - 1;
          assert p[i] in p;
        } else {
          assert r[j] == p[j];
        }
      }
      assert StrictlyAscending(r);
    }
  }

  predicate Sorted(s: seq<int>) {
    forall i, j :: 0 <= i < j < |s| ==> s[i] <= s[j]
  }

  predicate StrictlyAscending(s: seq<int>) {
    forall i, j :: 0 <= i < j < |s| ==> s[i] < s[j]
  }

  predicate Distinct(s: seq<int>) {
    forall i, j :: 0 <= i < j < |s| ==> s[i] != s[j]
  }

  function Insert(x: int, s: seq<int>): (r: seq<int>)
    requires Sorted(s)
    ensures Sorted(r) && multiset(r) == multiset(s) + multiset{x}
  {
    if s == [] || x <= s[0] then
      SortedCons(x, s);
      [x] + s
    else
      var t := Insert(x, s[1..]);
      BelowAll(s, x, t);
      SortedCons(s[0], t);
      assert s == [s[0]] + s[1..];
      [s[0]] + t
  }

  /** Putting a lower bound in front keeps a sorted sequence sorted. */
  lemma SortedCons(h: int, t: seq<int>)
    requires Sorted(t) && (t == [] || h <= t[0])
    ensures Sorted([h] + t)
  {
  }

  /** The head of a sorted `s` is below everything that `x > s[0]` and the rest of `s` make up. */
  lemma BelowAll(s: seq<int>, x: int, t: seq<int>)
    requires Sorted(s) && s != [] && s[0] < x
    requires multiset(t) == multiset(s[1..]) + multiset{x}
    ensures t == [] || s[0] <= t[0]
  {
    if t != [] {
      assert t[0] in multiset(t);
      if t[0] != x {
        assert t[0] in s[1..];
      }
    }
  }

  /** `list.sort()` on integers: ascending, with the same elements and multiplicities. */
  function Sort(s: seq<int>): (r: seq<int>)
    ensures Sorted(r) && multiset(r) == multiset(s)
  {
    if s == [] then []
    else
      assert s == [s[0]] + s[1..];
      Insert(s[0], Sort(s[1..]))
  }

  /** The end of `get_workflow_cmd_num` once the overrides `ov` are read and the probe stopped at `end`. */
  function PlanFrom(ov: seq<int>, start: int, end: int): Result<seq<int>, PlanError> {
    var list := ov + Probed(start, end, ov);
    if list == [] then Err(NoCommandsFound) else Ok(Sort(list))
  }

  /** What `get_workflow_cmd_num` yields, in order, or why it fails. */
  function PlanOf(cfg: DSConfig.Config, start: int): Result<seq<int>, PlanError> {
    match Overrides(cfg, start)
    case Err(e) => Err(e)
    case Ok(ov) => PlanFrom(ov, start, ProbeEnd(cfg, start))
  }

  /** `get_workflow_cmd_num`, with the generator's output collected into a sequence. */
  method Plan(cfg: DSConfig.Config, start: int) returns (r: Result<seq<int>, PlanError>)
    ensures r == PlanOf(cfg, start)
  {
    var overrides := Overrides(cfg, start);
    if overrides.Err? {
      return Err(overrides.error);
    }
    var list := Probe(cfg, start, overrides.value);
    if |list| == 0 {
      return Err(NoCommandsFound);
    }
    return Ok(Sort(list));
  }

  /** The `while True` loop: appends `start, start+1, ...` up to the first missing directive, skipping numbers already listed. */
  method Probe(cfg: DSConfig.Config, start: int, ov: seq<int>) returns (list: seq<int>)
    ensures list == ov + Probed(start, ProbeEnd(cfg, start), ov)
  {
    list := ov;
    var n := start;
    ghost var end := ProbeEnd(cfg, start);
    while HasCommand(cfg, n)
      invariant start <= n <= end
      invariant list == ov + Probed(start, n, ov)
      decreases end - n
    {
      assert n != end;
      ProbeStep(ov, start, n, list);
      if n !in list {
        list := list + [n];
      }
      n := n + 1;
    }
    ProbeStops(cfg, start, n);
  }

  /** The probe stops at `K` and nowhere before it. */
  lemma ProbeStops(cfg: DSConfig.Config, start: int, n: int)
    requires start <= n <= ProbeEnd(cfg, start) && !HasCommand(cfg, n)
    ensures n == ProbeEnd(cfg, start)
  {
  }

  /** One round of the probe loop: `n` is appended exactly when it is not an override. */
  lemma ProbeStep(ov: seq<int>, start: int, n: int, list: seq<int>)
    requires start <= n && list == ov + Probed(start, n, ov)
    ensures (if n in list then list else list + [n]) == ov + Probed(start, n + 1, ov)
  {
    assert n !in Probed(start, n, ov);
  }

  /**
   * The plan is sorted, and a number is in it exactly when it is an
   * override entry or lies in `S .. K-1`; overrides below `S` or beyond the
   * gap are kept. It is a permutation of the overrides and the probed
   * numbers, so an override number occurs as often as the overrides list it:
   * one listed twice runs twice. There is no plan exactly when both sources
   * are empty.
   */
  lemma {:induction false} PlanContents(ov: seq<int>, start: int, end: int)
    requires start <= end
    ensures PlanFrom(ov, start, end).Ok? <==> ov != [] || end > start
    ensures PlanFrom(ov, start, end).Err? ==> PlanFrom(ov, start, end) == Err(NoCommandsFound)
    ensures PlanFrom(ov, start, end).Ok? ==>
              var plan := PlanFrom(ov, start, end).value;
              Sorted(plan) && (forall x :: x in plan <==> x in ov || start <= x < end) &&
              multiset(plan) == multiset(ov) + multiset(Probed(start, end, ov)) &&
              forall x :: x in ov ==> multiset(plan)[x] == multiset(ov)[x]
  {
    var p := Probed(start, end, ov);
    var list := ov + p;
    if end > start {
      assert start in list;
    }
    if list != [] {
      forall x ensures x in Sort(list) <==> x in ov || start <= x < end {
        assert x in Sort(list) <==> x in multiset(Sort(list));
        assert x in list <==> x in multiset(list);
      }
      OverrideCounts(ov, p, Sort(list));
    }
  }

  /** An arrangement of the overrides and numbers none of them lists keeps each override's count. */
  lemma OverrideCounts(ov: seq<int>, p: seq<int>, plan: seq<int>)
    requires multiset(plan) == multiset(ov + p)
    requires forall x :: x in p ==> x !in ov
    ensures multiset(plan) == multiset(ov) + multiset(p)
    ensures forall x :: x in ov ==> multiset(plan)[x] == multiset(ov)[x]
  {
    assert multiset(ov + p) == multiset(ov) + multiset(p);
    forall x | x in ov ensures multiset(plan)[x] == multiset(ov)[x] {
      assert x !in multiset(p);
    }
  }

  lemma {:induction false} DistinctByCounts(s: seq<int>)
    ensures Distinct(s) <==> forall x :: multiset(s)[x] <= 1
  {
    if s != [] {
      var t := s[1..];
      assert s == [s[0]] + t;
      DistinctByCounts(t);
      if Distinct(s) {
        assert Distinct(t) by {
          forall i, j | 0 <= i < j < |t| ensures t[i] != t[j] {
            assert t[i] == s[i + 1] && t[j] == s[j + 1];
          }
        }
        assert s[0] !in t by {
          forall i | 0 <= i < |t| ensures t[i] != s[0] {
            assert t[i] == s[i + 1];
          }
        }
      } else {
        var i, j :| 0 <= i < j < |s| && s[i] == s[j];
        if i == 0 {
          assert s[0] in t by {
            assert t[j - 1] == s[j];
          }
          assert multiset(s)[s[0]] >= 2;
        } else {
          assert t[i - 1] == t[j - 1];
          assert !Distinct(t);
          var y :| multiset(t)[y] > 1;
          assert multiset(s)[y] >= multiset(t)[y];
        }
      }
    }
  }

  /**
   * A probed number is never added twice, so when `always_run_cmds` lists no
   * number twice the plan is strictly ascending.
   */
  lemma {:induction false} PlanStrictlyAscending(ov: seq<int>, start: int, end: int)
    requires Distinct(ov) && PlanFrom(ov, start, end).Ok?
    ensures StrictlyAscending(PlanFrom(ov, start, end).value)
  {
    var p := Probed(start, end, ov);
    var list := ov + p;
    ProbedAscending(start, end, ov);
    assert Distinct(list) by {
      forall i, j | 0 <= i < j < |list| ensures list[i] != list[j] {
        if j >= |ov| {
          assert list[j] == p[j - |ov|];
          if i >= |ov| {
            assert list[i] == p[i - |ov|];
          } else {
            assert list[i] in ov;
          }
        }
      }
    }
    DistinctByCounts(list);
    DistinctByCounts(Sort(list));
  }

  lemma {:induction false} SortSorted(s: seq<int>)
    requires Sorted(s)
    ensures Sort(s) == s
  {
    if s != [] {
      SortSorted(s[1..]);
    }
  }

  /**
   * From `S <= 1` the overrides are not read and the plan is exactly
   * `S, ..., K-1` in order; with no directive `S` there is no plan.
   */
  lemma {:induction false} PlanFromStart(cfg: DSConfig.Config, start: int)
    requires start <= 1
    ensures var k := ProbeEnd(cfg, start);
            PlanOf(cfg, start) == if k > start then Ok(seq(k - start, i => start + i)) else Err(NoCommandsFound)
  {
    PlanWithoutOverrides(start, ProbeEnd(cfg, start));
  }

  /** Without overrides the plan is the probed range itself, in order. */
  lemma {:induction false} PlanWithoutOverrides(start: int, end: int)
    requires start <= end
    ensures PlanFrom([], start, end) == if end > start then Ok(seq(end - start, i => start + i)) else Err(NoCommandsFound)
  {
    var p := Probed(start, end, []);
    assert [] + p == p;
    RangeSize(start, end, p);
    if end > start {
      var range := seq(end - start, i => start + i);
      assert p == range by {
        forall i | 0 <= i < |p| ensures p[i] == range[i] {
          ConsecutiveAt(start, end, p, i);
        }
      }
      SortSorted(p);
    }
  }

  lemma {:induction false} RangeSize(lo: int, hi: int, p: seq<int>)
    requires lo <= hi && p == Probed(lo, hi, [])
    ensures |p| == hi - lo
    decreases hi - lo
  {
    if hi > lo {
      RangeSize(lo, hi - 1, Probed(lo, hi - 1, []));
    }
  }

  lemma {:induction false} ConsecutiveAt(lo: int, hi: int, p: seq<int>, i: int)
    requires lo <= hi && p == Probed(lo, hi, []) && 0 <= i < |p|
    ensures p[i] == lo + i
    decreases hi - lo
  {
    RangeSize(lo, hi, p);
    var q := Probed(lo, hi - 1, []);
    RangeSize(lo, hi - 1, q);
    if i < |q| {
      ConsecutiveAt(lo, hi - 1, q, i);
    }
  }
}
