/**
 * The service-metrics collector ("svr"): it classifies the configured location,
 * reads it either by running it as a program or by an HTTP GET, parses the
 * payload into a map from metric name to value, and emits one gauge per entry.
 *
 * Everything outside the collector's own logic is an oracle in `Env`:
 * `os.Stat`, `url.Parse`, running the program, `http.Get` with reading the
 * body, `json.Unmarshal` and `strconv.ParseFloat`.
 */
module Service {
  import opened Wrappers
  import opened Text

  /** A float64, as its IEEE 754 bit pattern; the collector never computes with it. */
  type Float64 = bv64

  /** What `checkPathType` answers. */
  datatype PathType = FILE | HTTP | NONE

  /** A decoded JSON value, as `json.Unmarshal` delivers it into an `interface{}`. */
  datatype JValue =
    | JStr(s: string)
    | JNum(n: Float64)
    | JBool(b: bool)
    | JNull
    | JArr(items: seq<JValue>)
    | JObj(fields: seq<(string, JValue)>)

  /** The two results of `strconv.ParseFloat(s, 64)`: it yields a value even when it fails. */
  datatype Conversion = Conversion(value: Float64, err: Option<string>)

  /** What running the program yields: its standard output and the error of `cmd.Run`. */
  datatype Run = Run(stdout: string, err: Option<string>)

  /** What `http.Get` followed by reading and closing the body yields. */
  datatype Fetch = Body(text: string) | FetchFailed(reason: string)

  /**
   * The world the collector observes. `unmarshal` yields `None` exactly when
   * `json.Unmarshal` into a `map[string]interface{}` returns an error, and
   * otherwise the decoded members in the order a `range` over the map visits
   * them (the text `null` decodes without error to a nil map: `Some([])`).
   */
  datatype Env = Env(
    statOk: string -> bool,
    urlParses: string -> bool,
    run: string -> Run,
    get: string -> Fetch,
    unmarshal: string -> Option<seq<(string, JValue)>>,
    parseFloat: string -> Conversion)

  datatype Error =
    | ExecError(text: string)
    | FetchError(text: string)
    | ParseError(text: string)
    | InvalidMetrics
    | UnsupportedPath(path: string)

  /** The text of an error, as `err.Error()` would give it. */
  function Message(e: Error): string
  {
    match e
    case ExecError(t) => t
    case FetchError(t) => t
    case ParseError(t) => t
    case InvalidMetrics => "invalid metrics"
    case UnsupportedPath(p) => "Unsupported path:" + p
  }

  /** How an ingestion routine ends: nil error, an error, or a run-time panic (an index out of range). */
  datatype Status = Ok | Failed(error: Error) | Panicked

  /** The caller's map after an ingestion routine wrote into it, and how the routine ended. */
  datatype Ingest = Ingest(rst: map<string, Float64>, status: Status)

  // ---------------------------------------------------------------------------
  // Classifying the location

  /**
   * A location that exists on the filesystem is a FILE whether or not it also
   * parses as a URL; otherwise it is HTTP when it parses as a URL, else NONE.
   */
  function CheckPathType(path: string, env: Env): (r: PathType)
    ensures r == FILE <==> env.statOk(path)
    ensures r == HTTP <==> !env.statOk(path) && env.urlParses(path)
    ensures r == NONE <==> !env.statOk(path) && !env.urlParses(path)
  {
    if env.statOk(path) then FILE
    else if env.urlParses(path) then HTTP
    else NONE
  }

  // ---------------------------------------------------------------------------
  // Storing samples into the map

  /** The map after the writes `rst[k] = v` for each pair of `writes`, in order. */
  function Store(rst: map<string, Float64>, writes: seq<(string, Float64)>): map<string, Float64>
    decreases |writes|
  {
    if writes == [] then rst else Store(rst[writes[0].0 := writes[0].1], writes[1..])
  }

  /** A key is in the map after the writes exactly when it was there before or some write names it. */
  lemma {:induction false} StoreKeys(rst: map<string, Float64>, writes: seq<(string, Float64)>, k: string)
    ensures k in Store(rst, writes) <==> k in rst || exists i :: 0 <= i < |writes| && writes[i].0 == k
    decreases |writes|
  {
    if writes != [] {
      var rest := writes[1..];
      StoreKeys(rst[writes[0].0 := writes[0].1], rest, k);
      if exists i :: 0 <= i < |rest| && rest[i].0 == k {
        var i :| 0 <= i < |rest| && rest[i].0 == k;
        assert writes[i + 1].0 == k;
      }
      if exists i :: 0 <= i < |writes| && writes[i].0 == k {
        var i :| 0 <= i < |writes| && writes[i].0 == k;
        if i > 0 { assert rest[i - 1].0 == k; }
      }
    }
  }

  /** A key that no write names keeps its value. */
  lemma {:induction false} StoreUnwritten(rst: map<string, Float64>, writes: seq<(string, Float64)>, k: string)
    requires k in rst
    requires forall i :: 0 <= i < |writes| ==> writes[i].0 != k
    ensures k in Store(rst, writes) && Store(rst, writes)[k] == rst[k]
    decreases |writes|
  {
    if writes != [] {
      var rest := writes[1..];
      assert writes[0].0 != k;
      assert forall i :: 0 <= i < |rest| ==> rest[i].0 != k by {
        forall i | 0 <= i < |rest| ensures rest[i].0 != k {
          assert rest[i] == writes[i + 1];
        }
      }
      StoreUnwritten(rst[writes[0].0 := writes[0].1], rest, k);
    }
  }

  /** A write that no later write overrides decides its key's value. */
  lemma {:induction false} StoreLastWrite(rst: map<string, Float64>, writes: seq<(string, Float64)>, i: nat)
    requires i < |writes|
    requires forall j :: i < j < |writes| ==> writes[j].0 != writes[i].0
    ensures writes[i].0 in Store(rst, writes) && Store(rst, writes)[writes[i].0] == writes[i].1
    decreases |writes|
  {
    var rst1 := rst[writes[0].0 := writes[0].1];
    var rest := writes[1..];
    if i == 0 {
      assert forall j :: 0 <= j < |rest| ==> rest[j].0 != writes[0].0 by {
        forall j | 0 <= j < |rest| ensures rest[j].0 != writes[0].0 {
          assert rest[j] == writes[j + 1];
        }
      }
      StoreUnwritten(rst1, rest, writes[0].0);
    } else {
      assert rest[i - 1] == writes[i];
      assert forall j :: i - 1 < j < |rest| ==> rest[j].0 != rest[i - 1].0 by {
        forall j | i - 1 < j < |rest| ensures rest[j].0 != rest[i - 1].0 {
          assert rest[j] == writes[j + 1];
        }
      }
      StoreLastWrite(rst1, rest, i - 1);
    }
  }

  /**
   * Last write wins: a key is present when it was present or written; a
   * written key holds the value of its last write; an unwritten key keeps its
   * value.
   */
  lemma StoreLastWins(rst: map<string, Float64>, writes: seq<(string, Float64)>)
    ensures forall k :: k in Store(rst, writes) <==> k in rst || exists i :: 0 <= i < |writes| && writes[i].0 == k
    ensures forall i :: 0 <= i < |writes| && (forall j :: i < j < |writes| ==> writes[j].0 != writes[i].0) ==>
              writes[i].0 in Store(rst, writes) && Store(rst, writes)[writes[i].0] == writes[i].1
    ensures forall k :: k in rst && (forall i :: 0 <= i < |writes| ==> writes[i].0 != k) ==>
              k in Store(rst, writes) && Store(rst, writes)[k] == rst[k]
  {
    forall k ensures k in Store(rst, writes) <==> k in rst || exists i :: 0 <= i < |writes| && writes[i].0 == k {
      StoreKeys(rst, writes, k);
    }
    forall i | 0 <= i < |writes| && (forall j :: i < j < |writes| ==> writes[j].0 != writes[i].0)
      ensures writes[i].0 in Store(rst, writes) && Store(rst, writes)[writes[i].0] == writes[i].1
    {
      StoreLastWrite(rst, writes, i);
    }
    forall k | k in rst && (forall i :: 0 <= i < |writes| ==> writes[i].0 != k)
      ensures k in Store(rst, writes) && Store(rst, writes)[k] == rst[k]
    {
      StoreUnwritten(rst, writes, k);
    }
  }

  // ---------------------------------------------------------------------------
  // The line grammars

  /** Which of the two line loops: the program's output, or the HTTP fallback. */
  datatype Grammar = Shell | HttpLines

  /**
   * Whether a line's space-separated fields let the loop go on: the program's
   * loop reads field 1 without checking (fewer than two fields panic), the
   * HTTP loop demands exactly two fields.
   */
  predicate FieldsOk(fields: seq<string>, g: Grammar)
  {
    if g == Shell then |fields| >= 2 else |fields| == 2
  }

  /** How a line with unacceptable fields ends the loop. */
  function ArityFault(g: Grammar): Status
  {
    if g == Shell then Panicked else Failed(InvalidMetrics)
  }

  /** A line the loop accepts and goes past. */
  predicate GoodLine(line: string, parse: string -> Conversion, g: Grammar)
  {
    var fields := Split(line, ' ');
    FieldsOk(fields, g) && parse(fields[1]).err == None
  }

  /** The write a line with at least two fields makes: field 0 to the conversion of field 1. */
  function Sample(line: string, parse: string -> Conversion): (string, Float64)
    requires |Split(line, ' ')| >= 2
  {
    var fields := Split(line, ' ');
    (fields[0], parse(fields[1]).value)
  }

  predicate Splittable(lines: seq<string>)
  {
    forall i :: 0 <= i < |lines| ==> |Split(lines[i], ' ')| >= 2
  }

  function Samples(lines: seq<string>, parse: string -> Conversion): seq<(string, Float64)>
    requires Splittable(lines)
  {
    seq(|lines|, i requires 0 <= i < |lines| => Sample(lines[i], parse))
  }

  /**
   * The body of `for scanner.Scan() { ... }` run over `lines`: each line is
   * split on single spaces, field 0 is set to the conversion of field 1 (even
   * when the conversion fails), and the first failing line ends the loop.
   */
  function ScanOutcome(lines: seq<string>, parse: string -> Conversion, rst: map<string, Float64>, g: Grammar): (r: Ingest)
    ensures rst.Keys <= r.rst.Keys
    ensures g == HttpLines ==> r.status != Panicked
  {
    if lines == [] then Ingest(rst, Ok)
    else
      var fields := Split(lines[0], ' ');
      if !FieldsOk(fields, g) then Ingest(rst, ArityFault(g))
      else
        var c := parse(fields[1]);
        var rst1 := rst[fields[0] := c.value];
        if c.err.Some? then Ingest(rst1, Failed(ParseError(c.err.value)))
        else ScanOutcome(lines[1..], parse, rst1, g)
  }

  /**
   * A loop succeeds exactly when every line is acceptable, and then the map
   * holds the writes of all lines in order (a later duplicate name wins).
   */
  lemma {:induction false} ScanAccepts(lines: seq<string>, parse: string -> Conversion, rst: map<string, Float64>, g: Grammar)
    ensures ScanOutcome(lines, parse, rst, g).status == Ok <==> forall i :: 0 <= i < |lines| ==> GoodLine(lines[i], parse, g)
    ensures ScanOutcome(lines, parse, rst, g).status == Ok ==>
              Splittable(lines) && ScanOutcome(lines, parse, rst, g).rst == Store(rst, Samples(lines, parse))
  {
    if lines != [] {
      var fields := Split(lines[0], ' ');
      if FieldsOk(fields, g) {
        var c := parse(fields[1]);
        var rst1 := rst[fields[0] := c.value];
        ScanAccepts(lines[1..], parse, rst1, g);
        if forall i :: 0 <= i < |lines| ==> GoodLine(lines[i], parse, g) {
          assert forall i :: 0 <= i < |lines[1..]| ==> GoodLine(lines[1..][i], parse, g) by {
            forall i | 0 <= i < |lines[1..]| ensures GoodLine(lines[1..][i], parse, g) {
              assert lines[1..][i] == lines[i + 1];
            }
          }
          assert Samples(lines, parse)[1..] == Samples(lines[1..], parse);
        } else {
          var i :| 0 <= i < |lines| && !GoodLine(lines[i], parse, g);
          if i > 0 { assert lines[1..][i - 1] == lines[i]; }
        }
      } else {
        assert !GoodLine(lines[0], parse, g);
      }
    }
  }

  /**
   * A loop stops at its first unacceptable line: on too few (or, for HTTP,
   * too many) fields it ends with the arity fault and the writes of the lines
   * before; on a failed conversion it ends with that conversion's error and
   * the writes up to and including the failing line.
   */
  lemma ScanStopsAtFirstBadLine(lines: seq<string>, parse: string -> Conversion, rst: map<string, Float64>, g: Grammar, i: nat)
    requires i < |lines|
    requires forall j :: 0 <= j < i ==> GoodLine(lines[j], parse, g)
    requires !GoodLine(lines[i], parse, g)
    ensures !FieldsOk(Split(lines[i], ' '), g) ==>
              Splittable(lines[..i]) &&
              ScanOutcome(lines, parse, rst, g) == Ingest(Store(rst, Samples(lines[..i], parse)), ArityFault(g))
    ensures FieldsOk(Split(lines[i], ' '), g) ==>
              Splittable(lines[..i + 1]) &&
              ScanOutcome(lines, parse, rst, g) ==
              Ingest(Store(rst, Samples(lines[..i + 1], parse)), Failed(ParseError(parse(Split(lines[i], ' ')[1]).err.value)))
  {
    if FieldsOk(Split(lines[i], ' '), g) {
      ScanStopsAtFailedConversion(lines, parse, rst, g, i);
    } else {
      ScanStopsAtBadFields(lines, parse, rst, g, i);
    }
  }

  /** A first line with unacceptable fields ends the loop with the earlier lines' writes. */
  lemma {:induction false} ScanStopsAtBadFields(lines: seq<string>, parse: string -> Conversion, rst: map<string, Float64>, g: Grammar, i: nat)
    requires i < |lines|
    requires forall j :: 0 <= j < i ==> GoodLine(lines[j], parse, g)
    requires !FieldsOk(Split(lines[i], ' '), g)
    ensures Splittable(lines[..i])
    ensures ScanOutcome(lines, parse, rst, g) == Ingest(Store(rst, Samples(lines[..i], parse)), ArityFault(g))
  {
    GoodPrefixSplittable(lines, parse, g, i);
    if i == 0 {
      assert lines[..0] == [];
    } else {
      var fields := Split(lines[0], ' ');
      assert GoodLine(lines[0], parse, g);
      var rst1 := rst[fields[0] := parse(fields[1]).value];
      var rest := lines[1..];
      assert forall j :: 0 <= j < i - 1 ==> GoodLine(rest[j], parse, g) by {
        forall j | 0 <= j < i - 1 ensures GoodLine(rest[j], parse, g) {
          assert rest[j] == lines[j + 1];
        }
      }
      assert rest[i - 1] == lines[i];
      assert ScanOutcome(lines, parse, rst, g) == ScanOutcome(rest, parse, rst1, g);
      ScanStopsAtBadFields(rest, parse, rst1, g, i - 1);
      var writes := Samples(lines[..i], parse);
      assert writes[0] == (fields[0], parse(fields[1]).value);
      assert writes[1..] == Samples(rest[..i - 1], parse);
      assert Store(rst, writes) == Store(rst1, Samples(rest[..i - 1], parse));
    }
  }

  /**
   * A first line whose conversion fails ends the loop with that conversion's
   * error and the writes up to and including that line.
   */
  lemma {:induction false} ScanStopsAtFailedConversion(lines: seq<string>, parse: string -> Conversion, rst: map<string, Float64>, g: Grammar, i: nat)
    requires i < |lines|
    requires forall j :: 0 <= j < i ==> GoodLine(lines[j], parse, g)
    requires FieldsOk(Split(lines[i], ' '), g) && parse(Split(lines[i], ' ')[1]).err.Some?
    ensures Splittable(lines[..i + 1])
    ensures ScanOutcome(lines, parse, rst, g) ==
            Ingest(Store(rst, Samples(lines[..i + 1], parse)), Failed(ParseError(parse(Split(lines[i], ' ')[1]).err.value)))
  {
    var upto := lines[..i + 1];
    GoodPrefixSplittable(lines, parse, g, i);
    assert upto == lines[..i] + [lines[i]];
    assert Splittable(upto) by {
      forall j | 0 <= j < |upto| ensures |Split(upto[j], ' ')| >= 2 {
        if j < i { assert upto[j] == lines[..i][j]; } else { assert upto[j] == lines[i]; }
      }
    }
    var fields := Split(lines[0], ' ');
    if i == 0 {
      assert Samples(upto, parse) == [Sample(lines[0], parse)];
    } else {
      assert GoodLine(lines[0], parse, g);
      var rst1 := rst[fields[0] := parse(fields[1]).value];
      var rest := lines[1..];
      assert forall j :: 0 <= j < i - 1 ==> GoodLine(rest[j], parse, g) by {
        forall j | 0 <= j < i - 1 ensures GoodLine(rest[j], parse, g) {
          assert rest[j] == lines[j + 1];
        }
      }
      assert rest[i - 1] == lines[i];
      assert ScanOutcome(lines, parse, rst, g) == ScanOutcome(rest, parse, rst1, g);
      ScanStopsAtFailedConversion(rest, parse, rst1, g, i - 1);
      assert rest[..i] == upto[1..];
      var writes := Samples(upto, parse);
      assert writes[0] == (fields[0], parse(fields[1]).value);
      assert writes[1..] == Samples(rest[..i], parse);
      assert Store(rst, writes) == Store(rst1, Samples(rest[..i], parse));
    }
  }

  lemma GoodPrefixSplittable(lines: seq<string>, parse: string -> Conversion, g: Grammar, n: nat)
    requires n <= |lines|
    requires forall j :: 0 <= j < n ==> GoodLine(lines[j], parse, g)
    ensures Splittable(lines[..n])
  {
    forall j | 0 <= j < n ensures |Split(lines[..n][j], ' ')| >= 2 {
      assert lines[..n][j] == lines[j];
      assert GoodLine(lines[j], parse, g);
    }
  }

  /**
   * The program's loop reads only fields 0 and 1, so extra fields are
   * ignored, while the HTTP loop rejects the same line; a blank line panics
   * the program's loop and is rejected by the HTTP loop.
   */
  lemma ExtraFieldsAndBlankLines(name: string, value: string, extra: string, parse: string -> Conversion, rst: map<string, Float64>)
    requires ' ' !in name && ' ' !in value
    ensures ScanOutcome([name + " " + value + " " + extra], parse, rst, Shell) ==
            ScanOutcome([name + " " + value], parse, rst, Shell)
    ensures ScanOutcome([name + " " + value + " " + extra], parse, rst, HttpLines) == Ingest(rst, Failed(InvalidMetrics))
    ensures ScanOutcome([""], parse, rst, Shell) == Ingest(rst, Panicked)
    ensures ScanOutcome([""], parse, rst, HttpLines) == Ingest(rst, Failed(InvalidMetrics))
  {
    SplitAppend(name, value + " " + extra, ' ');
    SplitAppend(value, extra, ' ');
    SplitAppend(name, value, ' ');
    SplitWithout(name, ' ');
    SplitWithout(value, ' ');
    assert name + " " + value + " " + extra == name + [' '] + (value + [' '] + extra);
    assert name + " " + value == name + [' '] + value;
  }

  // ---------------------------------------------------------------------------
  // The JSON branch

  /**
   * The `for k, v := range dat` loop: a string value is converted and stored
   * (even when the conversion fails) and sets `err`; every other value falls
   * into a `case` with an empty body (JSON numbers decode to float64, never
   * to int) and changes nothing. Yields the map and the final `err`.
   */
  function JsonFold(entries: seq<(string, JValue)>, parse: string -> Conversion, rst: map<string, Float64>, err: Option<string>): (r: (map<string, Float64>, Option<string>))
    ensures rst.Keys <= r.0.Keys
    ensures (forall i :: 0 <= i < |entries| ==> !entries[i].1.JStr?) ==> r == (rst, err)
  {
    if entries == [] then (rst, err)
    else
      match entries[0].1
      case JStr(s) =>
        var c := parse(s);
        JsonFold(entries[1..], parse, rst[entries[0].0 := c.value], c.err)
      case _ => JsonFold(entries[1..], parse, rst, err)
  }

  /** The JSON branch, started with `err == nil` since decoding succeeded. */
  function JsonOutcome(entries: seq<(string, JValue)>, parse: string -> Conversion, rst: map<string, Float64>): (r: Ingest)
    ensures rst.Keys <= r.rst.Keys
    ensures r.status == Ok || (r.status.Failed? && r.status.error.ParseError?)
  {
    var (m, err) := JsonFold(entries, parse, rst, None);
    Ingest(m, if err.Some? then Failed(ParseError(err.value)) else Ok)
  }

  /** The members of the object whose values are strings, in order. */
  function StringMembers(entries: seq<(string, JValue)>): seq<(string, string)>
  {
    if entries == [] then []
    else if entries[0].1.JStr? then [(entries[0].0, entries[0].1.s)] + StringMembers(entries[1..])
    else StringMembers(entries[1..])
  }

  /** The writes that converting the string members makes. */
  function Converted(members: seq<(string, string)>, parse: string -> Conversion): seq<(string, Float64)>
  {
    seq(|members|, i requires 0 <= i < |members| => (members[i].0, parse(members[i].1).value))
  }

  /**
   * The JSON loop stores exactly the string members, converted, in order,
   * and ends with the error of the last string conversion (or the initial
   * error when there is no string member).
   */
  lemma {:induction false} JsonStoresOnlyStrings(entries: seq<(string, JValue)>, parse: string -> Conversion, rst: map<string, Float64>, err: Option<string>)
    ensures JsonFold(entries, parse, rst, err).0 == Store(rst, Converted(StringMembers(entries), parse))
    ensures JsonFold(entries, parse, rst, err).1 ==
            var strs := StringMembers(entries);
            if strs == [] then err else parse(strs[|strs| - 1].1).err
  {
    if entries != [] {
      var (k, v) := entries[0];
      if v.JStr? {
        var c := parse(v.s);
        JsonStoresOnlyStrings(entries[1..], parse, rst[k := c.value], c.err);
        assert Converted(StringMembers(entries), parse)[1..] == Converted(StringMembers(entries[1..]), parse);
      } else {
        JsonStoresOnlyStrings(entries[1..], parse, rst, err);
      }
    }
  }

  /**
   * What the JSON branch yields: the keys of the map are the earlier keys and
   * the keys of string members; a key whose last string member is `v` holds
   * the conversion of `v`; the branch fails exactly when the last string
   * conversion in iteration order failed, with that conversion's error.
   */
  lemma JsonResult(entries: seq<(string, JValue)>, parse: string -> Conversion, rst: map<string, Float64>)
    ensures var strs := StringMembers(entries);
            forall k :: k in JsonOutcome(entries, parse, rst).rst <==>
                        k in rst || exists i :: 0 <= i < |strs| && strs[i].0 == k
    ensures var strs := StringMembers(entries);
            forall i :: 0 <= i < |strs| && (forall j :: i < j < |strs| ==> strs[j].0 != strs[i].0) ==>
                        JsonOutcome(entries, parse, rst).rst[strs[i].0] == parse(strs[i].1).value
    ensures var strs := StringMembers(entries);
            JsonOutcome(entries, parse, rst).status ==
            if strs != [] && parse(strs[|strs| - 1].1).err.Some?
            then Failed(ParseError(parse(strs[|strs| - 1].1).err.value))
            else Ok
  {
    var strs := StringMembers(entries);
    var writes := Converted(strs, parse);
    var out := JsonOutcome(entries, parse, rst);
    JsonStoresOnlyStrings(entries, parse, rst, None);
    assert out.rst == Store(rst, writes);
    forall k ensures k in out.rst <==> k in rst || exists i :: 0 <= i < |strs| && strs[i].0 == k {
      StoreKeys(rst, writes, k);
      if exists i :: 0 <= i < |strs| && strs[i].0 == k {
        var i :| 0 <= i < |strs| && strs[i].0 == k;
        assert writes[i].0 == k;
      }
      if exists i :: 0 <= i < |writes| && writes[i].0 == k {
        var i :| 0 <= i < |writes| && writes[i].0 == k;
        assert strs[i].0 == k;
      }
    }
    forall i | 0 <= i < |strs| && (forall j :: i < j < |strs| ==> strs[j].0 != strs[i].0)
      ensures out.rst[strs[i].0] == parse(strs[i].1).value
    {
      assert writes[i] == (strs[i].0, parse(strs[i].1).value);
      assert forall j :: i < j < |writes| ==> writes[j].0 != writes[i].0 by {
        forall j | i < j < |writes| ensures writes[j].0 != writes[i].0 {
          assert writes[j].0 == strs[j].0;
        }
      }
      StoreLastWrite(rst, writes, i);
    }
  }

  /**
   * The object `{"x": 3, "y": "4.5", "z": true}` yields only `y`: the number
   * and the boolean are dropped.
   */
  lemma JsonDropsNonStrings(three: Float64, parse: string -> Conversion)
    requires parse("4.5").err == None
    ensures var r := JsonOutcome([("x", JNum(three)), ("y", JStr("4.5")), ("z", JBool(true))], parse, map[]);
            r.status == Ok && r.rst == map["y" := parse("4.5").value]
  {
    var entries := [("x", JNum(three)), ("y", JStr("4.5")), ("z", JBool(true))];
    var c := parse("4.5");
    assert entries[1..][1..] == [("z", JBool(true))];
    assert JsonFold(entries[1..][1..], parse, map["y" := c.value], c.err) == (map["y" := c.value], None);
    assert JsonFold(entries[1..], parse, map[], None) == (map["y" := c.value], None);
  }

  // ---------------------------------------------------------------------------
  // The two ingestion routines

  /** `getSvrInfoByShell`: run the program; on success scan its standard output. */
  function ByShell(path: string, env: Env, rst: map<string, Float64>): (r: Ingest)
    ensures rst.Keys <= r.rst.Keys
    ensures env.run(path).err.Some? ==> r.rst == rst
  {
    var out := env.run(path);
    if out.err.Some? then Ingest(rst, Failed(ExecError(out.err.value)))
    else ScanOutcome(Lines(out.stdout), env.parseFloat, rst, Shell)
  }

  /** `getSvrInfoByHttp`: fetch the body; take the JSON branch when `json.Unmarshal` accepts it, else scan its lines. */
  function ByHttp(path: string, env: Env, rst: map<string, Float64>): (r: Ingest)
    ensures rst.Keys <= r.rst.Keys
    ensures r.status != Panicked
    ensures env.get(path).FetchFailed? ==> r.rst == rst
  {
    match env.get(path)
    case FetchFailed(reason) => Ingest(rst, Failed(FetchError(reason)))
    case Body(text) =>
      match env.unmarshal(text)
      case Some(entries) => JsonOutcome(entries, env.parseFloat, rst)
      case None => ScanOutcome(Lines(text), env.parseFloat, rst, HttpLines)
  }

  method GetSvrInfoByShell(path: string, env: Env, rst0: map<string, Float64>) returns (rst: map<string, Float64>, status: Status)
    ensures Ingest(rst, status) == ByShell(path, env, rst0)
  {
    var out := env.run(path);
    if out.err.Some? {
      return rst0, Failed(ExecError(out.err.value));
    }
    var lines := Lines(out.stdout);
    rst := rst0;
    var i := 0;
    while i < |lines|
      invariant 0 <= i <= |lines|
      invariant ScanOutcome(lines[i..], env.parseFloat, rst, Shell) == ByShell(path, env, rst0)
    {
      var fields := Split(lines[i], ' ');
      if |fields| < 2 {
        // fields[1] is out of range: the Go loop panics here.
        return rst, Panicked;
      }
      var c := env.parseFloat(fields[1]);
      rst := rst[fields[0] := c.value];
      if c.err.Some? {
        return rst, Failed(ParseError(c.err.value));
      }
      assert lines[i..][1..] == lines[i + 1..];
      i := i + 1;
    }
    status := Ok;
  }

  method GetSvrInfoByHttp(path: string, env: Env, rst0: map<string, Float64>) returns (rst: map<string, Float64>, status: Status)
    ensures Ingest(rst, status) == ByHttp(path, env, rst0)
  {
    rst := rst0;
    var fetched := env.get(path);
    if fetched.FetchFailed? {
      return rst, Failed(FetchError(fetched.reason));
    }
    var info := fetched.text;
    var dat := env.unmarshal(info);
    if dat.Some? {
      var entries := dat.value;
      var err: Option<string> := None;
      var i := 0;
      while i < |entries|
        invariant 0 <= i <= |entries|
        invariant JsonFold(entries[i..], env.parseFloat, rst, err) == JsonFold(entries, env.parseFloat, rst0, None)
      {
        var (k, v) := entries[i];
        match v {
          case JStr(s) =>
            var c := env.parseFloat(s);
            rst := rst[k := c.value];
            err := c.err;
          case JNum(_) =>
            // `case float64:` has an empty body and Go cases do not fall through.
          case _ =>
        }
        assert entries[i..][1..] == entries[i + 1..];
        i := i + 1;
      }
      status := if err.Some? then Failed(ParseError(err.value)) else Ok;
    } else {
      var lines := Lines(info);
      var i := 0;
      while i < |lines|
        invariant 0 <= i <= |lines|
        invariant ScanOutcome(lines[i..], env.parseFloat, rst, HttpLines) == ByHttp(path, env, rst0)
      {
        var fields := Split(lines[i], ' ');
        if |fields| != 2 {
          return rst, Failed(InvalidMetrics);
        }
        var c := env.parseFloat(fields[1]);
        rst := rst[fields[0] := c.value];
        if c.err.Some? {
          return rst, Failed(ParseError(c.err.value));
        }
        assert lines[i..][1..] == lines[i + 1..];
        i := i + 1;
      }
      status := Ok;
    }
  }

  // ---------------------------------------------------------------------------
  // Dispatch and emission

  /** `getSvrInfo`: a fresh map, filled by the routine the location's class selects. */
  function SvrInfo(path: string, env: Env): (r: Ingest)
    ensures r.status == Panicked ==> env.statOk(path)
  {
    match CheckPathType(path, env)
    case FILE => ByShell(path, env, map[])
    case HTTP => ByHttp(path, env, map[])
    case NONE => Ingest(map[], Failed(UnsupportedPath(path)))
  }

  /** A location that neither exists nor parses as a URL fails with "Unsupported path:" and leaves the map empty. */
  lemma UnsupportedLocation(path: string, env: Env)
    requires !env.statOk(path) && !env.urlParses(path)
    ensures SvrInfo(path, env).rst == map[]
    ensures SvrInfo(path, env).status.Failed?
    ensures Message(SvrInfo(path, env).status.error) == "Unsupported path:" + path
  {
  }

  /** An existing file is run as a program even when its name is also a URL. */
  lemma ExistingFileWins(path: string, env: Env)
    requires env.statOk(path)
    ensures SvrInfo(path, env) == ByShell(path, env, map[])
  {
  }

  lemma TwoFields(name: string, value: string)
    requires ' ' !in name && ' ' !in value
    ensures Split(name + " " + value, ' ') == [name, value]
  {
    SplitAppend(name, value, ' ');
    SplitWithout(name, ' ');
    SplitWithout(value, ' ');
    assert name + " " + value == name + [' '] + value;
  }

  lemma ScenarioFields()
    ensures Split("cpu 0.42", ' ') == ["cpu", "0.42"]
    ensures Split("mem 128", ' ') == ["mem", "128"]
  {
    assert "cpu" + " " + "0.42" == "cpu 0.42";
    TwoFields("cpu", "0.42");
    assert "mem" + " " + "128" == "mem 128";
    TwoFields("mem", "128");
  }

  lemma ScenarioLines()
    ensures Lines("cpu 0.42\nmem 128\n") == ["cpu 0.42", "mem 128"]
  {
    var lines := ["cpu 0.42", "mem 128"];
    assert Terminated(lines[1..][1..]) == [];
    assert Terminated(lines[1..]) == "mem 128" + "\n";
    assert Terminated(lines) == "cpu 0.42\nmem 128\n";
    assert '\n' !in lines[0] && '\n' !in lines[1];
    ScanTerminated(lines);
  }

  /**
   * A program at an existing location that prints `cpu 0.42` and `mem 128`
   * yields exactly those two entries.
   */
  lemma ProgramOutputScenario(path: string, env: Env)
    requires env.statOk(path)
    requires env.run(path) == Run("cpu 0.42\nmem 128\n", None)
    requires env.parseFloat("0.42").err == None && env.parseFloat("128").err == None
    ensures SvrInfo(path, env) ==
            Ingest(map["cpu" := env.parseFloat("0.42").value, "mem" := env.parseFloat("128").value], Ok)
  {
    var lines := ["cpu 0.42", "mem 128"];
    ScenarioFields();
    ScenarioLines();
    var parse := env.parseFloat;
    var m1 := map["cpu" := parse("0.42").value];
    var m2 := m1["mem" := parse("128").value];
    assert ScanOutcome(lines[1..], parse, m1, Shell) == ScanOutcome([], parse, m2, Shell) by {
      assert lines[1..][1..] == [];
    }
    assert ScanOutcome(lines, parse, map[], Shell) == ScanOutcome(lines[1..], parse, m1, Shell);
  }

  method GetSvrInfo(path: string, env: Env) returns (rst: map<string, Float64>, status: Status)
    ensures Ingest(rst, status) == SvrInfo(path, env)
  {
    rst := map[];
    var pathType := CheckPathType(path, env);
    if pathType == FILE {
      rst, status := GetSvrInfoByShell(path, env, rst);
    } else if pathType == HTTP {
      rst, status := GetSvrInfoByHttp(path, env, rst);
    } else {
      status := Failed(UnsupportedPath(path));
    }
  }

  /** One observation sent on the metrics channel. */
  datatype Gauge = Gauge(name: string, value: Float64)

  /** What one collection cycle yields: the observations, the returned error, or a panic. */
  datatype Collected = Emitted(gauges: seq<Gauge>) | UpdateError(message: string) | Crashed

  /** `prometheus.BuildFQName(namespace, "svr", k)`. */
  function FQName(namespace: string, k: string): (name: string)
    ensures name == [] <==> k == []
    ensures k != [] ==> |name| > |k| && name[|name| - |k|..] == k
  {
    if k == [] then []
    else if namespace == [] then "svr_" + k
    else namespace + "_svr_" + k
  }

  /** Distinct keys give distinct fully-qualified names. */
  lemma FQNameInjective(namespace: string, k1: string, k2: string)
    requires k1 != k2
    ensures FQName(namespace, k1) != FQName(namespace, k2)
  {
    var p := if namespace == [] then "svr_" else namespace + "_svr_";
    if k1 != [] && k2 != [] {
      assert FQName(namespace, k1) == p + k1 && FQName(namespace, k2) == p + k2;
      assert (p + k1)[|p|..] == k1 && (p + k2)[|p|..] == k2;
    }
  }

  /** The gauge is the one for some key of `m`. */
  ghost predicate GaugeOfKey(g: Gauge, namespace: string, m: map<string, Float64>)
  {
    exists k :: k in m && g == Gauge(FQName(namespace, k), m[k])
  }

  /** Exactly one gauge per key of `m`, named after the key and carrying its value. */
  ghost predicate OneGaugePerKey(gauges: seq<Gauge>, namespace: string, m: map<string, Float64>)
  {
    (forall k :: k in m ==> Gauge(FQName(namespace, k), m[k]) in gauges) &&
    (forall i :: 0 <= i < |gauges| ==> GaugeOfKey(gauges[i], namespace, m)) &&
    (forall i, j :: 0 <= i < j < |gauges| ==> gauges[i].name != gauges[j].name)
  }

  /** One gauge per key means as many gauges as keys. */
  lemma {:induction false} OneGaugePerKeyCount(gauges: seq<Gauge>, namespace: string, m: map<string, Float64>)
    requires OneGaugePerKey(gauges, namespace, m)
    ensures |gauges| == |m|
  {
    var keyOf := map k | k in m :: FQName(namespace, k);
    var names := set i | 0 <= i < |gauges| :: gauges[i].name;
    NamesCount(gauges);
    var nameOfKey := set k | k in m :: FQName(namespace, k);
    assert names == nameOfKey by {
      forall n | n in names ensures n in nameOfKey {
        var i :| 0 <= i < |gauges| && gauges[i].name == n;
        assert GaugeOfKey(gauges[i], namespace, m);
        var k :| k in m && gauges[i] == Gauge(FQName(namespace, k), m[k]);
      }
      forall n | n in nameOfKey ensures n in names {
        var k :| k in m && FQName(namespace, k) == n;
        var i :| 0 <= i < |gauges| && gauges[i] == Gauge(FQName(namespace, k), m[k]);
      }
    }
    KeysCount(namespace, m);
  }

  lemma {:induction false} NamesCount(gauges: seq<Gauge>)
    requires forall i, j :: 0 <= i < j < |gauges| ==> gauges[i].name != gauges[j].name
    ensures |set i | 0 <= i < |gauges| :: gauges[i].name| == |gauges|
    decreases |gauges|
  {
    if gauges != [] {
      var n := |gauges| - 1;
      var front := gauges[..n];
      NamesCount(front);
      var s := set i | 0 <= i < |gauges| :: gauges[i].name;
      var s0 := set i | 0 <= i < |front| :: front[i].name;
      assert s == s0 + {gauges[n].name} by {
        forall x | x in s ensures x in s0 + {gauges[n].name} {
          var i :| 0 <= i < |gauges| && gauges[i].name == x;
          if i < n { assert front[i].name == x; }
        }
      }
      assert gauges[n].name !in s0;
    }
  }

  lemma {:induction false} KeysCount(namespace: string, m: map<string, Float64>)
    ensures |set k | k in m :: FQName(namespace, k)| == |m|
    decreases |m|
  {
    if m != map[] {
      var k0 :| k0 in m;
      var rest := m - {k0};
      KeysCount(namespace, rest);
      var s := set k | k in m :: FQName(namespace, k);
      var s0 := set k | k in rest :: FQName(namespace, k);
      assert s == s0 + {FQName(namespace, k0)};
      forall k | k in rest ensures FQName(namespace, k) != FQName(namespace, k0) {
        FQNameInjective(namespace, k, k0);
      }
      assert m.Keys == rest.Keys + {k0};
    }
  }

  /**
   * The `for k, v := range rst` loop of `Update`: one gauge per key, taken in
   * an order the loop picks, named after the key and carrying its value.
   */
  method Emit(namespace: string, svrInfo: map<string, Float64>) returns (gauges: seq<Gauge>)
    ensures OneGaugePerKey(gauges, namespace, svrInfo)
    ensures |gauges| == |svrInfo|
  {
    gauges := [];
    var remaining := svrInfo.Keys;
    ghost var visited: seq<string> := [];
    while remaining != {}
      invariant remaining <= svrInfo.Keys
      invariant |gauges| == |visited|
      invariant forall i :: 0 <= i < |visited| ==>
                  visited[i] in svrInfo && visited[i] !in remaining &&
                  gauges[i] == Gauge(FQName(namespace, visited[i]), svrInfo[visited[i]])
      invariant forall k :: k in svrInfo && k !in remaining ==> k in visited
      invariant forall i, j :: 0 <= i < j < |visited| ==> visited[i] != visited[j]
      decreases remaining
    {
      var k :| k in remaining;
      gauges := gauges + [Gauge(FQName(namespace, k), svrInfo[k])];
      visited := visited + [k];
      remaining := remaining - {k};
    }
    forall k | k in svrInfo ensures Gauge(FQName(namespace, k), svrInfo[k]) in gauges {
      var i :| 0 <= i < |visited| && visited[i] == k;
      assert gauges[i] == Gauge(FQName(namespace, k), svrInfo[k]);
    }
    forall i | 0 <= i < |gauges| ensures GaugeOfKey(gauges[i], namespace, svrInfo) {
      var k := visited[i];
      assert k in svrInfo && gauges[i] == Gauge(FQName(namespace, k), svrInfo[k]);
    }
    forall i, j | 0 <= i < j < |gauges| ensures gauges[i].name != gauges[j].name {
      FQNameInjective(namespace, visited[i], visited[j]);
    }
    OneGaugePerKeyCount(gauges, namespace, svrInfo);
  }

  /**
   * `Update`: a failed acquisition returns "couldn't get service info: " and
   * the error, and emits nothing, even though the map may hold the entries of
   * earlier lines; a successful one emits exactly one gauge per key, in the
   * map's (unspecified) iteration order.
   */
  method Update(namespace: string, path: string, env: Env) returns (r: Collected)
    ensures SvrInfo(path, env).status.Failed? ==>
              r == UpdateError("couldn't get service info: " + Message(SvrInfo(path, env).status.error))
    ensures SvrInfo(path, env).status == Panicked ==> r == Crashed
    ensures SvrInfo(path, env).status == Ok ==>
              r.Emitted? && OneGaugePerKey(r.gauges, namespace, SvrInfo(path, env).rst) &&
              |r.gauges| == |SvrInfo(path, env).rst|
  {
    var svrInfo, status := GetSvrInfo(path, env);
    if status.Failed? {
      return UpdateError("couldn't get service info: " + Message(status.error));
    } else if status == Panicked {
      return Crashed;
    }
    var gauges := Emit(namespace, svrInfo);
    r := Emitted(gauges);
  }
}
