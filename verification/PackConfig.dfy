/** The data handling of the IP packing script: how an IP declaration is
    normalised before the TCL template is rendered, which IPs a request
    selects, and the order of the summary table. YAML parsing, template
    rendering, Vivado runs and file copies are not modelled: the declaration
    arrives as a map and the durations as numbers. */
module PackConfig {
  import opened Wrappers
  import opened Strings

  /** A YAML value as an IP declaration uses it: null, a string or a list. */
  datatype Value = Null | Text(s: string) | Items(vs: seq<Value>)

  /** An IP declaration: a YAML mapping. */
  type Config = map<string, Value>

  /** The Python exceptions normalisation can raise. */
  datatype ConfigError = KeyError(key: string) | TypeError | AttributeError

  /** Source entries with this prefix name an environment variable. */
  const SrsPrefix: string := "$SRS_"

  /** The keys normalisation always sets. */
  const Normalised: set<string> :=
    {"hdl_sources", "xilinx_ips", "part", "constraint_sources", "extra_ip_config", "readme", "resets", "logo"}

  // ---------------------------------------------------------------------
  // Declaration normalisation
  // ---------------------------------------------------------------------

  /** The `hdl_sources` loop over a list: every string starting with
      `$SRS_` becomes the value of the environment variable named by the
      string without its `$` (`None` when unset); every other string stays
      as it is. A non-string entry raises when its `startswith` is looked
      up. */
  function ResolveSources(vs: seq<Value>, env: map<string, string>): (r: Result<seq<Value>, ConfigError>)
    ensures r.Ok? <==> forall i :: 0 <= i < |vs| ==> vs[i].Text?
    ensures r.Err? ==> r.error == AttributeError
    ensures r.Ok? ==> |r.value| == |vs|
    ensures r.Ok? ==> forall i :: 0 <= i < |vs| && !StartsWith(vs[i].s, SrsPrefix) ==> r.value[i] == vs[i]
    ensures r.Ok? ==> forall i :: 0 <= i < |vs| && StartsWith(vs[i].s, SrsPrefix) ==>
      r.value[i] == (if vs[i].s[1..] in env then Text(env[vs[i].s[1..]]) else Null)
  {
    if |vs| == 0 then Ok([])
    else
      var init :- ResolveSources(vs[..|vs| - 1], env);
      var last := vs[|vs| - 1];
      if !last.Text? then Err(AttributeError)
      else if StartsWith(last.s, SrsPrefix) then
        var name := last.s[1..];
        Ok(init + [if name in env then Text(env[name]) else Null])
      else Ok(init + [last])
  }

  /** The loop applied to whatever `hdl_sources` holds: a list is resolved;
      a string is walked character by character, and no single character
      starts with `$SRS_`, so it is kept; `None` has no length. */
  function ResolveValue(v: Value, env: map<string, string>): (r: Result<Value, ConfigError>)
    ensures v.Null? ==> r == Err(TypeError)
    ensures v.Text? ==> r == Ok(v)
    ensures v.Items? ==> r.Ok? == ResolveSources(v.vs, env).Ok?
    ensures v.Items? && r.Ok? ==> r.value == Items(ResolveSources(v.vs, env).value)
  {
    match v
    case Null => Err(TypeError)
    case Text(_) => Ok(v)
    case Items(vs) =>
      var rs :- ResolveSources(vs, env);
      Ok(Items(rs))
  }

  /** `[x]` for a present key, `[]` for a missing one. */
  function Wrapped(config: Config, key: string): Value {
    if key in config then Items([config[key]]) else Items([])
  }

  /** `x` for a present key, `default` for a missing one. */
  function Defaulted(config: Config, key: string, default: Value): Value {
    if key in config then config[key] else default
  }

  /** The configuration `create_tcl` renders the template with. In debug
      mode with `hdl_sources_debug` present, `hdl_sources` becomes the very
      same list object, so the in-place resolution shows through both keys;
      otherwise `hdl_sources` is read and a missing one raises `KeyError`.
      `xilinx_ips` and `extra_ip_config` are wrapped in a one-element list;
      `constraint_sources`, `readme` and `resets` get defaults; `part` and
      `logo` are set from the arguments. */
  function Normalise(config: Config, part: string, debug: bool, env: map<string, string>, logo: string)
    : (r: Result<Config, ConfigError>)
    ensures r.Ok? ==> r.value.Keys == config.Keys + Normalised
    ensures var useDebug := debug && "hdl_sources_debug" in config;
            var src := if useDebug then config["hdl_sources_debug"] else Defaulted(config, "hdl_sources", Null);
            && (!useDebug && "hdl_sources" !in config ==> r == Err(KeyError("hdl_sources")))
            && (useDebug || "hdl_sources" in config ==> r.Ok? == ResolveValue(src, env).Ok?)
            && (r.Ok? ==> r.value["hdl_sources"] == ResolveValue(src, env).value)
            && (r.Ok? && useDebug ==> r.value["hdl_sources_debug"] == r.value["hdl_sources"])
    ensures r.Ok? ==> && r.value["part"] == Text(part) && r.value["logo"] == Text(logo)
                      && r.value["xilinx_ips"] == Wrapped(config, "xilinx_ips")
                      && r.value["extra_ip_config"] == Wrapped(config, "extra_ip_config")
                      && r.value["constraint_sources"] == Defaulted(config, "constraint_sources", Items([]))
                      && r.value["readme"] == Defaulted(config, "readme", Text(""))
                      && r.value["resets"] == Defaulted(config, "resets", Items([]))
    ensures r.Ok? ==> forall k :: k in config && k !in Normalised && k != "hdl_sources_debug" ==> r.value[k] == config[k]
    ensures r.Ok? && !(debug && "hdl_sources_debug" in config) && "hdl_sources_debug" in config ==>
      r.value["hdl_sources_debug"] == config["hdl_sources_debug"]
  {
    var useDebug := debug && "hdl_sources_debug" in config;
    if !useDebug && "hdl_sources" !in config then Err(KeyError("hdl_sources"))
    else
      var src := if useDebug then config["hdl_sources_debug"] else config["hdl_sources"];
      var resolved :- ResolveValue(src, env);
      var c := WithDefaults(config, part, logo)["hdl_sources" := resolved];
      Ok(if useDebug then c["hdl_sources_debug" := resolved] else c)
  }

  /** The declaration with every normalised key but the sources set: the
      part and logo given, the IP lists wrapped, the rest defaulted. */
  function WithDefaults(config: Config, part: string, logo: string): (c: Config)
    ensures c.Keys == config.Keys + (Normalised - {"hdl_sources"})
    ensures && c["part"] == Text(part) && c["logo"] == Text(logo)
            && c["xilinx_ips"] == Wrapped(config, "xilinx_ips")
            && c["extra_ip_config"] == Wrapped(config, "extra_ip_config")
            && c["constraint_sources"] == Defaulted(config, "constraint_sources", Items([]))
            && c["readme"] == Defaulted(config, "readme", Text(""))
            && c["resets"] == Defaulted(config, "resets", Items([]))
    ensures forall k :: k in config && k !in Normalised ==> c[k] == config[k]
  {
    config["xilinx_ips" := Wrapped(config, "xilinx_ips")]
          ["part" := Text(part)]
          ["constraint_sources" := Defaulted(config, "constraint_sources", Items([]))]
          ["extra_ip_config" := Wrapped(config, "extra_ip_config")]
          ["readme" := Defaulted(config, "readme", Text(""))]
          ["resets" := Defaulted(config, "resets", Items([]))]
          ["logo" := Text(logo)]
  }

  /** Sources without any `$SRS_` entry pass through unchanged: the
      `$script_path/` prefix the loop builds for them is never stored. */
  lemma {:induction false} SourcesWithoutPrefixUnchanged(vs: seq<Value>, env: map<string, string>)
    requires forall i :: 0 <= i < |vs| ==> vs[i].Text? && !StartsWith(vs[i].s, SrsPrefix)
    ensures ResolveSources(vs, env) == Ok(vs)
  {
    if |vs| > 0 {
      SourcesWithoutPrefixUnchanged(vs[..|vs| - 1], env);
      assert vs[..|vs| - 1] + [vs[|vs| - 1]] == vs;
    }
  }

  /** Resolving twice changes nothing more when no environment value
      starts with `$SRS_` itself. */
  lemma ResolveIdempotent(vs: seq<Value>, env: map<string, string>)
    requires ResolveSources(vs, env).Ok?
    requires forall k :: k in env ==> !StartsWith(env[k], SrsPrefix)
    ensures var once := ResolveSources(vs, env).value;
            (forall i :: 0 <= i < |once| ==> once[i].Text?) ==> ResolveSources(once, env) == Ok(once)
  {
    var once := ResolveSources(vs, env).value;
    if forall i :: 0 <= i < |once| ==> once[i].Text? {
      forall i | 0 <= i < |once| ensures !StartsWith(once[i].s, SrsPrefix) {
        if StartsWith(vs[i].s, SrsPrefix) {
          assert vs[i].s[1..] in env;
        }
      }
      SourcesWithoutPrefixUnchanged(once, env);
    }
  }

  /** Debug mode without `hdl_sources_debug` normalises exactly as normal
      mode does. */
  lemma DebugFallsBack(config: Config, part: string, env: map<string, string>, logo: string)
    requires "hdl_sources_debug" !in config
    ensures Normalise(config, part, true, env, logo) == Normalise(config, part, false, env, logo)
  {
  }

  // ---------------------------------------------------------------------
  // IP selection
  // ---------------------------------------------------------------------

  /** The parsed request: whether everything is to be packed, and the
      requested names. */
  datatype Request = Request(all: bool, names: seq<string>)

  /** The request list: the file's text split on newlines when the path
      names a file, else the argument split on commas; an empty text asks
      for every IP. */
  function ParseRequest(isFile: bool, fileText: string, arg: string): (r: Request)
    ensures var text := if isFile then fileText else arg;
            && (r.all <==> text == "")
            && Join(r.names, if isFile then '\n' else ',') == text
            && (r.all ==> r.names == [""])
  {
    var text := if isFile then fileText else arg;
    var sep := if isFile then '\n' else ',';
    JoinSplit(text, sep);
    Request(text == "", Split(text, sep))
  }

  /** The position of the first `x` in `xs`. */
  function FirstIndex(xs: seq<string>, x: string): (i: nat)
    requires x in xs
    ensures i < |xs| && xs[i] == x && forall j :: 0 <= j < i ==> xs[j] != x
  {
    if xs[0] == x then 0 else 1 + FirstIndex(xs[1..], x)
  }

  /** `xs.remove(x)`: the list without its first `x`, or `ValueError`
      (`None`) when there is none. */
  function Remove(xs: seq<string>, x: string): (r: Option<seq<string>>)
    ensures r.None? <==> x !in xs
    ensures r.Some? ==> r.value == xs[..FirstIndex(xs, x)] + xs[FirstIndex(xs, x) + 1..]
    ensures r.Some? ==> multiset(r.value) == multiset(xs) - multiset{x}
  {
    if x !in xs then None
    else
      var i := FirstIndex(xs, x);
      assert xs == xs[..i] + [x] + xs[i + 1..];
      Some(xs[..i] + xs[i + 1..])
  }

  /** The IPs packed, in catalogue order, and the requested names left
      over, reported as not found. */
  datatype Selection = Selection(packed: seq<string>, notFound: seq<string>)

  /** The selection loop as written: an IP is packed when everything is
      requested or its name is still in the list, and its name is then
      removed from the list, which raises `ValueError` (the error carries
      the name) when it is not there. */
  function SelectAsWritten(catalogue: seq<string>, all: bool, requested: seq<string>): (r: Result<Selection, string>)
    ensures !all ==> r.Ok?
    ensures !all ==> multiset(r.value.packed) + multiset(r.value.notFound) == multiset(requested)
    ensures r.Ok? ==> |r.value.packed| <= |catalogue|
  {
    if |catalogue| == 0 then Ok(Selection([], requested))
    else
      var n := catalogue[0];
      if all || n in requested then
        match Remove(requested, n)
        case None => Err(n)
        case Some(rest) =>
          assert multiset(requested) == multiset(rest) + multiset{n};
          var sel :- SelectAsWritten(catalogue[1..], all, rest);
          Ok(Selection([n] + sel.packed, sel.notFound))
      else SelectAsWritten(catalogue[1..], all, requested)
  }

  /** In the requested mode an IP of the catalogue is packed exactly when
      its name was requested. */
  lemma {:induction false} SelectedIffRequested(catalogue: seq<string>, requested: seq<string>, n: string)
    ensures n in SelectAsWritten(catalogue, false, requested).value.packed <==> n in catalogue && n in requested
  {
    if |catalogue| > 0 {
      var m := catalogue[0];
      assert catalogue == [m] + catalogue[1..];
      if m in requested {
        var rest := Remove(requested, m).value;
        var sel := SelectAsWritten(catalogue[1..], false, rest).value;
        assert SelectAsWritten(catalogue, false, requested).value.packed == [m] + sel.packed;
        SelectedIffRequested(catalogue[1..], rest, n);
        if n != m {
          RemoveKeepsOthers(requested, m, n);
        }
      } else {
        assert SelectAsWritten(catalogue, false, requested) == SelectAsWritten(catalogue[1..], false, requested);
        SelectedIffRequested(catalogue[1..], requested, n);
      }
    }
  }

  /** Removing one name leaves every other name where it was. */
  lemma RemoveKeepsOthers(xs: seq<string>, x: string, y: string)
    requires x in xs && y != x
    ensures y in Remove(xs, x).value <==> y in xs
  {
    var rest := Remove(xs, x).value;
    assert multiset(rest) == multiset(xs) - multiset{x};
    assert y in multiset(rest) <==> y in multiset(xs);
  }

  /** With everything requested, the request list is `[""]`, so the first
      IP with a non-empty name makes `remove` raise: packing a whole
      catalogue never gets past its first named IP. */
  lemma AllModeRaises(name: string, rest: seq<string>)
    requires name != ""
    ensures SelectAsWritten([name] + rest, true, [""]) == Err(name)
  {
  }

  /** The selection loop with the removal guarded by membership: everything
      requested packs the whole catalogue and leaves nothing unreported;
      otherwise it is the loop as written. */
  function Select(catalogue: seq<string>, all: bool, requested: seq<string>): (r: Selection)
    ensures all ==> r.packed == catalogue
  {
    if |catalogue| == 0 then Selection([], requested)
    else
      var n := catalogue[0];
      if all || n in requested then
        var sel := Select(catalogue[1..], all, if n in requested then Remove(requested, n).value else requested);
        Selection([n] + sel.packed, sel.notFound)
      else Select(catalogue[1..], all, requested)
  }

  /** With a name list the guard never fires, so the corrected loop agrees
      with the loop as written. */
  lemma {:induction false} SelectAgrees(catalogue: seq<string>, requested: seq<string>)
    ensures Ok(Select(catalogue, false, requested)) == SelectAsWritten(catalogue, false, requested)
  {
    if |catalogue| > 0 {
      var n := catalogue[0];
      if n in requested {
        SelectAgrees(catalogue[1..], Remove(requested, n).value);
      } else {
        SelectAgrees(catalogue[1..], requested);
      }
    }
  }

  /** The selection a request makes: an empty request starts from an empty
      list of names, so nothing is reported as not found. */
  function SelectFor(catalogue: seq<string>, req: Request): (r: Selection)
    ensures req.all ==> r == Selection(catalogue, [])
    ensures !req.all ==> Ok(r) == SelectAsWritten(catalogue, false, req.names)
  {
    if req.all then AllPacked(catalogue); Select(catalogue, true, [])
    else SelectAgrees(catalogue, req.names); Select(catalogue, false, req.names)
  }

  /** With everything requested and no names to remove, every IP is packed
      and the list stays empty. */
  lemma {:induction false} AllPacked(catalogue: seq<string>)
    ensures Select(catalogue, true, []) == Selection(catalogue, [])
  {
    if |catalogue| > 0 {
      AllPacked(catalogue[1..]);
    }
  }

  // ---------------------------------------------------------------------
  // Summary
  // ---------------------------------------------------------------------

  /** One packed IP and how long it took (in hundredths of a second). */
  datatype Build = Build(name: string, duration: nat)

  /** A row of the summary table. */
  datatype Row = Timed(build: Build) | TotalRow(duration: nat) | Missing(name: string)

  /** Longest first. */
  predicate SortedDesc(bs: seq<Build>) {
    forall i, j :: 0 <= i < j < |bs| ==> bs[i].duration >= bs[j].duration
  }

  /** Places `b` before the first build that took no longer. */
  function Insert(b: Build, bs: seq<Build>): (r: seq<Build>)
    requires SortedDesc(bs)
    ensures |r| == |bs| + 1
    ensures SortedDesc(r)
    ensures multiset(r) == multiset(bs) + multiset{b}
  {
    if |bs| == 0 || b.duration >= bs[0].duration then [b] + bs
    else
      var tail := Insert(b, bs[1..]);
      assert bs == [bs[0]] + bs[1..];
      HeadDominates(bs[0], tail, b, bs[1..]);
      [bs[0]] + tail
  }

  /** A build that took at least as long as `b` and as every build of `bs`
      can go in front of a sorted arrangement of them. */
  lemma HeadDominates(h: Build, tail: seq<Build>, b: Build, bs: seq<Build>)
    requires SortedDesc(tail) && multiset(tail) == multiset(bs) + multiset{b}
    requires h.duration >= b.duration
    requires forall i :: 0 <= i < |bs| ==> h.duration >= bs[i].duration
    ensures SortedDesc([h] + tail)
  {
    forall j | 0 <= j < |tail| ensures h.duration >= tail[j].duration {
      assert tail[j] in multiset(tail);
      if tail[j] != b {
        assert tail[j] in multiset(bs);
        var k :| 0 <= k < |bs| && bs[k] == tail[j];
      }
    }
  }

  /** `sorted(builds, key=duration, reverse=True)`. */
  function SortByDuration(bs: seq<Build>): (r: seq<Build>)
    ensures |r| == |bs|
    ensures SortedDesc(r)
    ensures multiset(r) == multiset(bs)
  {
    if |bs| == 0 then []
    else
      assert bs == [bs[0]] + bs[1..];
      Insert(bs[0], SortByDuration(bs[1..]))
  }

  function TimedRows(bs: seq<Build>): (rows: seq<Row>)
    ensures |rows| == |bs| && forall i :: 0 <= i < |bs| ==> rows[i] == Timed(bs[i])
  {
    if |bs| == 0 then [] else [Timed(bs[0])] + TimedRows(bs[1..])
  }

  function MissingRows(names: seq<string>): (rows: seq<Row>)
    ensures |rows| == |names| && forall i :: 0 <= i < |names| ==> rows[i] == Missing(names[i])
  {
    if |names| == 0 then [] else [Missing(names[0])] + MissingRows(names[1..])
  }

  /** The summary table: the builds longest first, then the total, then
      every IP not found, in request order. */
  function Summary(builds: seq<Build>, total: nat, notFound: seq<string>): (rows: seq<Row>)
    ensures |rows| == |builds| + 1 + |notFound|
    ensures forall i :: 0 <= i < |builds| ==> rows[i].Timed?
    ensures SortedDesc(BuildsOf(rows[..|builds|]))
    ensures multiset(BuildsOf(rows[..|builds|])) == multiset(builds)
    ensures rows[|builds|] == TotalRow(total)
    ensures forall k :: |builds| < k < |rows| ==> rows[k] == Missing(notFound[k - |builds| - 1])
  {
    var ranked := Ranked(builds);
    var footer := Footer(total, notFound);
    assert (ranked + footer)[..|builds|] == ranked;
    ranked + footer
  }

  /** The builds as timed rows, longest first. */
  function Ranked(builds: seq<Build>): (rows: seq<Row>)
    ensures |rows| == |builds|
    ensures forall i :: 0 <= i < |rows| ==> rows[i].Timed?
    ensures SortedDesc(BuildsOf(rows))
    ensures multiset(BuildsOf(rows)) == multiset(builds)
  {
    var sorted := SortByDuration(builds);
    BuildsOfTimedRows(sorted);
    TimedRows(sorted)
  }

  /** The total, then one row per IP not found. */
  function Footer(total: nat, notFound: seq<string>): (rows: seq<Row>)
    ensures |rows| == 1 + |notFound|
    ensures rows[0] == TotalRow(total)
    ensures forall k :: 0 < k < |rows| ==> rows[k] == Missing(notFound[k - 1])
  {
    [TotalRow(total)] + MissingRows(notFound)
  }

  /** The builds of a run of timed rows. */
  function BuildsOf(rows: seq<Row>): seq<Build>
    requires forall i :: 0 <= i < |rows| ==> rows[i].Timed?
  {
    if |rows| == 0 then [] else [rows[0].build] + BuildsOf(rows[1..])
  }

  lemma {:induction false} BuildsOfTimedRows(bs: seq<Build>)
    ensures BuildsOf(TimedRows(bs)) == bs
  {
    if |bs| > 0 {
      BuildsOfTimedRows(bs[1..]);
      assert TimedRows(bs)[1..] == TimedRows(bs[1..]);
    }
  }
}
