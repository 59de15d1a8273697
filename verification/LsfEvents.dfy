/** The policy-driven parser of LSF accounting records, and records printed to match a policy list. */
module LsfEvents {
  import opened Wrappers
  import opened Decimals
  import opened LsfReader

  datatype AcctError =
    | NoField(name: string)
    | InvalidValue(name: string, raw: string)
    | InvalidVersion(version: string)
    | PythonValueError
    | PythonTypeError
    | PythonIndexError

  /** A field to skip: a fixed one, or a count followed by that many rows of the other names. */
  datatype Skip = Fixed(name: string) | Counted(names: seq<string>)

  datatype Policy =
    | IntPolicy(name: string, skips: seq<Skip>)
    | StrPolicy(name: string, skips: seq<Skip>)
    | TuplePolicy(names: seq<string>, skips: seq<Skip>)
  {
    predicate Valid() {
      && (TuplePolicy? ==> |names| >= 2)
      && forall i :: 0 <= i < |skips| && skips[i].Counted? ==> |skips[i].names| >= 1
    }
  }

  predicate ValidPolicies(ps: seq<Policy>) {
    forall i :: 0 <= i < |ps| ==> ps[i].Valid()
  }

  /** An attribute value; `Hosts` stands for the comma-joined set of host names. */
  datatype Value = IntV(n: int) | StrV(s: string) | Hosts(names: set<string>)

  type Attrs = map<string, Value>

  // ----- What parsing computes -----

  function SkipFixed(line: string, offset: nat, name: string): Result<nat, AcctError> {
    match ReadField(line, offset)
    case None => Err(NoField(name))
    case Some((raw, next)) => Ok(next)
  }

  function RowName(names: seq<string>, idx: nat, k: nat): string
    requires k + 1 < |names|
  {
    names[0] + "." + PrintNat(idx) + "." + names[k + 1]
  }

  function SkipRow(line: string, offset: nat, names: seq<string>, idx: nat, k: nat): Result<nat, AcctError>
    requires |names| >= 1
    decreases |names| - k
  {
    if k + 1 >= |names| then Ok(offset)
    else
      match SkipFixed(line, offset, RowName(names, idx, k))
      case Err(e) => Err(e)
      case Ok(next) => SkipRow(line, next, names, idx, k + 1)
  }

  function SkipRows(line: string, offset: nat, names: seq<string>, idx: nat, count: int): Result<nat, AcctError>
    requires |names| >= 1
    decreases count - idx
  {
    if idx >= count then Ok(offset)
    else
      match SkipRow(line, offset, names, idx, 0)
      case Err(e) => Err(e)
      case Ok(next) => SkipRows(line, next, names, idx + 1, count)
  }

  function SkipCounted(line: string, offset: nat, names: seq<string>): Result<nat, AcctError>
    requires |names| >= 1
  {
    match ReadField(line, offset)
    case None => Err(NoField(names[0]))
    case Some((raw, next)) =>
      match PyInt(raw)
      case None => Err(InvalidValue(names[0], raw))
      case Some(count) => SkipRows(line, next, names, 0, count)
  }

  function SkipOne(line: string, offset: nat, s: Skip): Result<nat, AcctError>
    requires s.Counted? ==> |s.names| >= 1
  {
    match s
    case Fixed(name) => SkipFixed(line, offset, name)
    case Counted(names) => SkipCounted(line, offset, names)
  }

  function SkipAll(line: string, offset: nat, skips: seq<Skip>): Result<nat, AcctError>
    requires forall i :: 0 <= i < |skips| && skips[i].Counted? ==> |skips[i].names| >= 1
    decreases |skips|
  {
    if skips == [] then Ok(offset)
    else
      match SkipOne(line, offset, skips[0])
      case Err(e) => Err(e)
      case Ok(next) => SkipAll(line, next, skips[1..])
  }

  predicate IsQuoted(raw: string) {
    |raw| >= 2 && raw[0] == '"' && raw[|raw| - 1] == '"'
  }

  function Unquoted(raw: string): string
    requires IsQuoted(raw)
  {
    raw[1..|raw| - 1]
  }

  /** The quoted values of the rows of a tuple field, after those already in `acc`. */
  function ReadHostRow(line: string, offset: nat, names: seq<string>, k: nat, acc: seq<string>)
    : Result<(nat, seq<string>), AcctError>
    requires |names| >= 2
    decreases |names| - k
  {
    if k + 1 >= |names| then Ok((offset, acc))
    else
      match ReadField(line, offset)
      case None => Err(PythonTypeError)
      case Some((raw, next)) =>
        if IsQuoted(raw) then ReadHostRow(line, next, names, k + 1, acc + [Unquoted(raw)])
        else if acc == [] then Err(PythonIndexError)
        else Err(InvalidValue(names[1], acc[0]))
  }

  function ReadHostRows(line: string, offset: nat, names: seq<string>, idx: nat, count: int, acc: seq<string>)
    : Result<(nat, seq<string>), AcctError>
    requires |names| >= 2
    decreases count - idx
  {
    if idx >= count then Ok((offset, acc))
    else
      match ReadHostRow(line, offset, names, 0, acc)
      case Err(e) => Err(e)
      case Ok((next, acc')) => ReadHostRows(line, next, names, idx + 1, count, acc')
  }

  function Elements(s: seq<string>): set<string> {
    set i | 0 <= i < |s| :: s[i]
  }

  /** The value part of a policy, once its skips are consumed. */
  function ParseValue(line: string, offset: nat, attrs: Attrs, p: Policy): Result<(nat, Attrs), AcctError>
    requires p.Valid()
  {
    match ReadField(line, offset)
    case None => Err(NoField(if p.TuplePolicy? then p.names[0] else p.name))
    case Some((raw, next)) =>
      match p
      case IntPolicy(name, _) =>
        (match PyInt(raw)
         case None => Err(InvalidValue(name, raw))
         case Some(n) => Ok((next, attrs[name := IntV(n)]["" := Hosts({})])))
      case StrPolicy(name, _) =>
        if IsQuoted(raw) then Ok((next, attrs[name := StrV(Unquoted(raw))]["" := Hosts({})]))
        else Err(InvalidValue(name, raw))
      case TuplePolicy(names, _) =>
        (match PyInt(raw)
         case None => Err(PythonValueError)
         case Some(n) =>
           match ReadHostRows(line, next, names, 0, n, [])
           case Err(e) => Err(e)
           case Ok((end, hosts)) => Ok((end, attrs[names[0] := IntV(n)][names[1] := Hosts(Elements(hosts))])))
  }

  function ParsePolicy(line: string, offset: nat, attrs: Attrs, p: Policy): Result<(nat, Attrs), AcctError>
    requires p.Valid()
  {
    match SkipAll(line, offset, p.skips)
    case Err(e) => Err(e)
    case Ok(next) => ParseValue(line, next, attrs, p)
  }

  function ParseAll(line: string, offset: nat, attrs: Attrs, ps: seq<Policy>): Result<(nat, Attrs), AcctError>
    requires ValidPolicies(ps)
    decreases |ps|
  {
    if ps == [] then Ok((offset, attrs))
    else
      match ParsePolicy(line, offset, attrs, ps[0])
      case Err(e) => Err(e)
      case Ok((next, attrs')) => ParseAll(line, next, attrs', ps[1..])
  }

  const SUPPORT_LSF_VERSION := "10.1"

  const HEADER_POLICIES: seq<Policy> :=
    [StrPolicy("event_type", []), StrPolicy("version", []), IntPolicy("event_time", [])]

  function Names(fields: seq<string>): seq<Skip> {
    seq(|fields|, i requires 0 <= i < |fields| => Fixed(fields[i]))
  }

  function JobFinishPolicies(): (ps: seq<Policy>)
    ensures ValidPolicies(ps) && |ps| == 19
  {
    [ IntPolicy("job_id", []),
      IntPolicy("num_processors", Names(["userId", "options"])),
      IntPolicy("submit_time", []),
      IntPolicy("term_time", Names(["beginTime"])),
      IntPolicy("start_time", []),
      StrPolicy("user_name", []),
      StrPolicy("queue", []),
      StrPolicy("working_dir", Names(["resReq", "dependCond", "preExecCmd", "fromHost"])),
      StrPolicy("out_file", Names(["inFile"])),
      StrPolicy("err_file", []),
      TuplePolicy(["num_asked_hosts", "askedHosts"], Names(["jobFile"])),
      TuplePolicy(["num_exhosts", "exec_hosts"], []),
      StrPolicy("job_name", Names(["jStatus", "hostFactor"])),
      IntPolicy("idx", Names(["command", "ru_utime", "ru_stime", "ru_maxrss", "ru_ixrss", "ru_ismrss",
                              "ru_idrss", "ru_isrss", "ru_minflt", "ru_majflt", "ru_nswap", "ru_inblock",
                              "ru_oublock", "ru_ioch", "ru_msgsnd", "ru_msgrcv", "ru_nsignals", "ru_nvcsw",
                              "ru_nivcsw", "ru_exutime", "mailUser", "projectName", "exitStatus",
                              "maxNumProcessors", "loginShell", "timeEvent"])),
      IntPolicy("max_rmem", []),
      IntPolicy("max_rswap", []),
      IntPolicy("avg_mem", Names(["inFileSpool", "commandSpool", "rsvId", "sla", "exceptMask",
                                  "additionalInfo", "exitInfo", "warningAction", "warningTimePeriod",
                                  "chargedSAAP", "licenseProject", "app", "postExecCmd",
                                  "runtimeEstimation", "jobGroupName", "requeueEvalues", "options2",
                                  "resizeNotifyCmd", "lastResizeTime", "rsvId", "jobDescription"])
                           + [Counted(["submitExtNum", "key", "value"]),
                              Counted(["numHostRusage", "hostname", "mem", "swap", "utime", "stime"])]
                           + Names(["options3", "runLimit"])),
      IntPolicy("run_time", Names(["effectiveResReq", "srcCluster", "srcJobId", "dstCluster", "dstJobId",
                                   "forwardTime", "flow_id", "acJobWaitTime", "totalProvisionTime",
                                   "outdir"])),
      IntPolicy("num_alloc_slots", [Fixed("subcwd"), Counted(["num_network", "networkID", "num_window"])]
                                   + Names(["affinity", "serial_job_energy", "cpi", "gips", "gbs", "gflops"]))
    ]
  }

  const EVENT_DEFAULTS: Attrs :=
    map["event_type" := StrV(""), "version" := StrV(""), "event_time" := IntV(0)]

  const JOB_FINISH_DEFAULTS: Attrs :=
    map["job_id" := IntV(0), "num_processors" := IntV(0), "submit_time" := IntV(0), "term_time" := IntV(0),
        "start_time" := IntV(0), "user_name" := StrV(""), "queue" := StrV(""), "job_name" := StrV(""),
        "idx" := IntV(0), "max_rmem" := IntV(0), "max_rswap" := IntV(0), "avg_mem" := IntV(0),
        "num_alloc_slots" := IntV(0), "num_exhosts" := IntV(0), "exec_hosts" := StrV(""),
        "working_dir" := StrV(""), "out_file" := StrV(""), "err_file" := StrV("")]

  function Text(attrs: Attrs, name: string): string {
    if name in attrs && attrs[name].StrV? then attrs[name].s else ""
  }

  function Number(attrs: Attrs, name: string): int {
    if name in attrs && attrs[name].IntV? then attrs[name].n else 0
  }

  /** `LSBAcctEvent(reader)`: the header attributes and where they end. */
  function ParseHeader(line: string): Result<(nat, Attrs), AcctError> {
    match ParseAll(line, 0, EVENT_DEFAULTS, HEADER_POLICIES)
    case Err(e) => Err(e)
    case Ok((next, attrs)) =>
      if SUPPORT_LSF_VERSION <= Text(attrs, "version") then Ok((next, attrs))
      else Err(InvalidVersion(Text(attrs, "version")))
  }

  /** `JobFinishEvent(reader)`: the attributes of the whole record. */
  function ParseJobFinish(line: string): Result<Attrs, AcctError> {
    match ParseHeader(line)
    case Err(e) => Err(e)
    case Ok((next, attrs)) =>
      match ParseAll(line, next, attrs + JOB_FINISH_DEFAULTS, JobFinishPolicies())
      case Err(e) => Err(e)
      case Ok((end, attrs')) => Ok(attrs')
  }

  // ----- The imperative parser -----

  /** What a call that may raise leaves behind: the exception, if there was one. */
  type Raised = Option<AcctError>

  method SkipFixedField(r: LSBAcctLineReader, name: string) returns (err: Raised)
    modifies r
    ensures match SkipFixed(r.line, old(r.offset), name)
            case Err(e) => err == Some(e)
            case Ok(next) => err == None && r.offset == next
  {
    var raw := r.ReadNextField();
    return if raw == None then Some(NoField(name)) else None;
  }

  method SkipDynamicField(r: LSBAcctLineReader, names: seq<string>) returns (err: Raised)
    requires |names| >= 1
    modifies r
    ensures match SkipCounted(r.line, old(r.offset), names)
            case Err(e) => err == Some(e)
            case Ok(next) => err == None && r.offset == next
  {
    hide ReadField, PyInt, RowName;
    var raw := r.ReadNextField();
    if raw == None {
      return Some(NoField(names[0]));
    }
    var count := PyInt(raw.value);
    if count == None {
      return Some(InvalidValue(names[0], raw.value));
    }
    var idx := 0;
    while idx < count.value
      invariant 0 <= idx
      invariant SkipCounted(r.line, old(r.offset), names) == SkipRows(r.line, r.offset, names, idx, count.value)
    {
      var k := 0;
      while k < |names| - 1
        invariant 0 <= k <= |names| - 1
        invariant SkipCounted(r.line, old(r.offset), names)
               == (match SkipRow(r.line, r.offset, names, idx, k)
                   case Err(e) => Err(e)
                   case Ok(next) => SkipRows(r.line, next, names, idx + 1, count.value))
      {
        err := SkipFixedField(r, RowName(names, idx, k));
        if err != None {
          return;
        }
        k := k + 1;
      }
      idx := idx + 1;
    }
    return None;
  }

  method SkipFields(r: LSBAcctLineReader, fields: seq<Skip>) returns (err: Raised)
    requires forall i :: 0 <= i < |fields| && fields[i].Counted? ==> |fields[i].names| >= 1
    modifies r
    ensures match SkipAll(r.line, old(r.offset), fields)
            case Err(e) => err == Some(e)
            case Ok(next) => err == None && r.offset == next
  {
    hide SkipCounted, SkipFixed;
    assert fields[0..] == fields;
    for i := 0 to |fields|
      invariant SkipAll(r.line, old(r.offset), fields) == SkipAll(r.line, r.offset, fields[i..])
    {
      assert fields[i..][1..] == fields[i + 1..];
      match fields[i] {
        case Counted(names) => err := SkipDynamicField(r, names);
        case Fixed(name) => err := SkipFixedField(r, name);
      }
      if err != None {
        return;
      }
    }
    return None;
  }

  class LSBAcctEvent {
    const lineReader: LSBAcctLineReader
    var attrs: Attrs

    constructor (lineReader: LSBAcctLineReader)
      ensures this.lineReader == lineReader && attrs == EVENT_DEFAULTS
    {
      this.lineReader := lineReader;
      attrs := EVENT_DEFAULTS;
    }

    method ReadTupleRows(names: seq<string>, count: int) returns (err: Raised, hosts: seq<string>)
      requires |names| >= 2
      modifies lineReader
      ensures match ReadHostRows(lineReader.line, old(lineReader.offset), names, 0, count, [])
              case Err(e) => err == Some(e)
              case Ok((next, found)) => err == None && lineReader.offset == next && hosts == found
    {
      hide ReadField, IsQuoted;
      hosts := [];
      var idx := 0;
      ghost var all := ReadHostRows(lineReader.line, lineReader.offset, names, 0, count, []);
      while idx < count
        invariant 0 <= idx
        invariant all == ReadHostRows(lineReader.line, lineReader.offset, names, idx, count, hosts)
      {
        var k := 0;
        while k < |names| - 1
          invariant 0 <= k <= |names| - 1
          invariant all == (match ReadHostRow(lineReader.line, lineReader.offset, names, k, hosts)
                            case Err(e) => Err(e)
                            case Ok((next, acc)) =>
                              ReadHostRows(lineReader.line, next, names, idx + 1, count, acc))
        {
          var raw := lineReader.ReadNextField();
          if raw == None {
            return Some(PythonTypeError), hosts;
          }
          if !IsQuoted(raw.value) {
            return Some(if hosts == [] then PythonIndexError else InvalidValue(names[1], hosts[0])), hosts;
          }
          hosts := hosts + [Unquoted(raw.value)];
          k := k + 1;
        }
        idx := idx + 1;
      }
      return None, hosts;
    }

    method ParseFieldValue(p: Policy) returns (err: Raised)
      requires p.Valid()
      modifies this, lineReader
      ensures match ParseValue(lineReader.line, old(lineReader.offset), old(attrs), p)
              case Err(e) => err == Some(e)
              case Ok((next, found)) => err == None && lineReader.offset == next && attrs == found
    {
      hide ReadField, PyInt, ReadHostRows, Elements;
      var raw := lineReader.ReadNextField();
      if raw == None {
        return Some(NoField(if p.TuplePolicy? then p.names[0] else p.name));
      }
      match p {
      case IntPolicy(name, _) =>
        var n := PyInt(raw.value);
        if n == None {
          return Some(InvalidValue(name, raw.value));
        }
        attrs := attrs[name := IntV(n.value)];
        attrs := attrs["" := Hosts({})];
      case StrPolicy(name, _) =>
        if !IsQuoted(raw.value) {
          return Some(InvalidValue(name, raw.value));
        }
        attrs := attrs[name := StrV(Unquoted(raw.value))];
        attrs := attrs["" := Hosts({})];
      case TuplePolicy(names, _) =>
        var n := PyInt(raw.value);
        if n == None {
          return Some(PythonValueError);
        }
        var hosts;
        err, hosts := ReadTupleRows(names, n.value);
        if err != None {
          return;
        }
        attrs := attrs[names[0] := IntV(n.value)];
        attrs := attrs[names[1] := Hosts(Elements(hosts))];
      }
      return None;
    }

    method BatchParseFields(ps: seq<Policy>) returns (err: Raised)
      requires ValidPolicies(ps)
      modifies this, lineReader
      ensures match ParseAll(lineReader.line, old(lineReader.offset), old(attrs), ps)
              case Err(e) => err == Some(e)
              case Ok((next, found)) => err == None && lineReader.offset == next && attrs == found
    {
      hide ParseValue, SkipAll;
      assert ps[0..] == ps;
      for i := 0 to |ps|
        invariant ParseAll(lineReader.line, old(lineReader.offset), old(attrs), ps)
               == ParseAll(lineReader.line, lineReader.offset, attrs, ps[i..])
      {
        assert ps[i..][1..] == ps[i + 1..];
        err := SkipFields(lineReader, ps[i].skips);
        if err != None {
          return;
        }
        err := ParseFieldValue(ps[i]);
        if err != None {
          return;
        }
      }
      return None;
    }

    /** The constructor's own parsing: the header, from the beginning of the line. */
    method ParseHeaderFields() returns (err: Raised)
      modifies this, lineReader
      requires attrs == EVENT_DEFAULTS
      ensures match ParseHeader(lineReader.line)
              case Err(e) => err == Some(e)
              case Ok((next, found)) => err == None && lineReader.offset == next && attrs == found
    {
      hide ParseAll;
      lineReader.GotoBegin();
      err := BatchParseFields(HEADER_POLICIES);
      if err == None && !(SUPPORT_LSF_VERSION <= Text(attrs, "version")) {
        err := Some(InvalidVersion(Text(attrs, "version")));
      }
    }
  }

  /** `LSBAcctEvent(reader)`. */
  method NewEvent(r: LSBAcctLineReader) returns (res: Result<Attrs, AcctError>)
    modifies r
    ensures match ParseHeader(r.line)
            case Err(e) => res == Err(e)
            case Ok((next, attrs)) => res == Ok(attrs)
  {
    var event := new LSBAcctEvent(r);
    var err := event.ParseHeaderFields();
    return if err == None then Ok(event.attrs) else Err(err.value);
  }

  /** `JobFinishEvent(reader)`. */
  method NewJobFinishEvent(r: LSBAcctLineReader) returns (res: Result<Attrs, AcctError>)
    modifies r
    ensures res == ParseJobFinish(r.line)
  {
    hide ParseAll, ParseHeader, JobFinishPolicies;
    var event := new LSBAcctEvent(r);
    var err := event.ParseHeaderFields();
    if err != None {
      return Err(err.value);
    }
    event.attrs := event.attrs + JOB_FINISH_DEFAULTS;
    err := event.BatchParseFields(JobFinishPolicies());
    return if err == None then Ok(event.attrs) else Err(err.value);
  }
}
