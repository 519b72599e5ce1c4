/** The client's logging helpers: redaction of values before they are
    logged, `with_extra`, and the JSON-array formatter. The string redaction
    itself (`util.redact_sensitive_logs`) and the library's formatters are
    function parameters. */
module Log {
  import opened Wrappers
  import Dicts

  /** The Python values that reach the logger. Dict keys are strings. */
  datatype Value =
    | Str(s: string)
    | Int(i: int)
    | Bool(b: bool)
    | Null
    | Tuple(elems: seq<Value>)
    | List(elems: seq<Value>)
    | Dict(entries: seq<(string, Value)>)

  /** `REDACT_FIELDS`. */
  const RedactFields: set<string> := {"token"}

  /** The value a redacted field gets. */
  const Redacted := "REDACTED"

  /** `redact_value(v)`, with `redact` for `util.redact_sensitive_logs`. */
  function RedactValue(v: Value, redact: string -> string): (r: Value)
    ensures r.Str? == v.Str? && r.List? == v.List? && r.Dict? == v.Dict?
    ensures v.List? ==> |r.elems| == |v.elems|
    ensures v.Dict? ==> Dicts.Keys(r.entries) == Dicts.Keys(v.entries)
    ensures !(v.Str? || v.List? || v.Dict?) ==> r == v
    decreases v, 1
  {
    match v
    case Dict(es) => Dict(RedactEntries(es, redact))
    case Str(s) => Str(redact(s))
    case List(xs) => List(seq(|xs|, i requires 0 <= i < |xs| => RedactValue(xs[i], redact)))
    case _ => v
  }

  /** The dict `redact_dict_fields(d)` builds, pair by pair. */
  function RedactEntries(es: seq<(string, Value)>, redact: string -> string): seq<(string, Value)>
    decreases Dict(es), 0
  {
    seq(|es|, i requires 0 <= i < |es| =>
      (es[i].0, if es[i].0 in RedactFields then Str(Redacted) else RedactValue(es[i].1, redact)))
  }

  /** `redact_dict_fields(d)`: fills a fresh dict, key by key. */
  method RedactDictFields(d: seq<(string, Value)>, redact: string -> string) returns (newD: seq<(string, Value)>)
    requires Dicts.UniqueKeys(d)
    ensures newD == RedactEntries(d, redact)
  {
    newD := [];
    var i := 0;
    while i < |d|
      invariant 0 <= i <= |d|
      invariant newD == RedactEntries(d[..i], redact)
    {
      var (k, v) := d[i];
      assert k !in Dicts.Keys(newD) by {
        forall j | 0 <= j < |newD| ensures newD[j].0 != k {
          assert newD[j].0 == d[j].0;
        }
      }
      var value := if k in RedactFields then Str(Redacted) else RedactValue(v, redact);
      Dicts.SetNewKey(newD, k, value);
      newD := Dicts.Set(newD, k, value);
      assert d[..i + 1][..i] == d[..i];
      i := i + 1;
    }
    assert d[..i] == d;
  }

  /** `with_extra(**kw)`. */
  function WithExtra(kw: seq<(string, Value)>): (r: Value)
    ensures r.Dict? && Dicts.Keys(r.entries) == ["extra"]
    ensures GetOrNone(r.entries, "extra") == Dict([("extra", Dict(kw))])
  {
    Dict([("extra", Dict([("extra", Dict(kw))]))])
  }

  /** What the `extra=` keyword of a logging call does to the record: each
      pair of the given dict becomes an attribute of the record. */
  function AddExtraAttributes(attrs: seq<(string, Value)>, kwargs: Value): seq<(string, Value)>
  {
    var extra := if kwargs.Dict? then GetOrNone(kwargs.entries, "extra") else Null;
    if extra.Dict? then Dicts.Update(attrs, extra.entries) else attrs
  }

  /** Python truthiness of a logged value: empty strings, zero, `False`,
      `None` and empty tuples, lists and dicts are falsy. */
  predicate Truthy(v: Value)
  {
    match v
    case Str(s) => s != ""
    case Int(i) => i != 0
    case Bool(b) => b
    case Null => false
    case Tuple(xs) => xs != []
    case List(xs) => xs != []
    case Dict(es) => es != []
  }

  /** `d.get(k)`: the value, or `None`. */
  function GetOrNone(d: seq<(string, Value)>, k: string): Value
  {
    match Dicts.Get(d, k)
    case Some(v) => v
    case None => Null
  }

  /** `JsonArrayFormatter.required_fields`. */
  const RequiredFields: seq<string> := ["asctime", "levelname", "name", "funcName", "lineno", "message"]

  /** The formatter's extra information before the record's own `extra` is
      merged in: the formatted exception (or `exc_text` when that is empty)
      and the formatted stack. */
  function BaseExtraMessage(attrs: seq<(string, Value)>, formatException: Value -> string,
                            formatStack: Value -> string): seq<(string, Value)>
  {
    var excInfo := GetOrNone(attrs, "exc_info");
    var m1 := if Truthy(excInfo) then Dicts.Set([], "exc_info", Str(formatException(excInfo))) else [];
    var excText := GetOrNone(attrs, "exc_text");
    var m2 := if !Truthy(GetOrNone(m1, "exc_info")) && Truthy(excText) then Dicts.Set(m1, "exc_info", excText) else m1;
    var stackInfo := GetOrNone(attrs, "stack_info");
    if Truthy(stackInfo) then Dicts.Set(m2, "stack_info", Str(formatStack(stackInfo))) else m2
  }

  /** The dict of extra information the formatter puts last: the base part,
      with the record's `extra` dict, when it is a non-empty dict, on top. */
  function ExtraMessage(attrs: seq<(string, Value)>, formatException: Value -> string,
                        formatStack: Value -> string): seq<(string, Value)>
  {
    MergeExtra(BaseExtraMessage(attrs, formatException, formatStack), GetOrNone(attrs, "extra"))
  }

  /** `extra_message_dict.update(extra)` when `extra` is a non-empty dict. */
  function MergeExtra(base: seq<(string, Value)>, extra: Value): seq<(string, Value)>
  {
    if Truthy(extra) && extra.Dict? then Dicts.Update(base, extra.entries) else base
  }

  /** The array `format` serialises, for a record with attributes `attrs`:
      the required fields in their order, then the extra dict. */
  function FormatSpec(attrs: seq<(string, Value)>, extraMessage: seq<(string, Value)>): seq<Value>
  {
    Dicts.Values(FieldPairs(attrs, |RequiredFields|)) + [Dict(extraMessage)]
  }

  /** A `logging.LogRecord`, through its attribute dict. */
  class LogRecord {
    var attrs: seq<(string, Value)>

    constructor(attrs: seq<(string, Value)>)
      ensures this.attrs == attrs
    {
      this.attrs := attrs;
    }
  }

  /** The required field names are distinct, and none is "extra". */
  lemma RequiredFieldsDistinct()
    ensures forall i, j :: 0 <= i < j < |RequiredFields| ==> RequiredFields[i] != RequiredFields[j]
    ensures "extra" !in RequiredFields
  {
  }

  /** The pairs of the first `n` required fields and their values in `attrs`. */
  function FieldPairs(attrs: seq<(string, Value)>, n: nat): (r: seq<(string, Value)>)
    requires n <= |RequiredFields|
    ensures |r| == n && forall i :: 0 <= i < n ==> r[i] == (RequiredFields[i], GetOrNone(attrs, RequiredFields[i]))
  {
    seq(n, i requires 0 <= i < n => (RequiredFields[i], GetOrNone(attrs, RequiredFields[i])))
  }

  /** The loop of `format` over `required_fields`, filling an ordered dict. */
  method RequiredFieldsRecord(attrs: seq<(string, Value)>) returns (localLogRecord: seq<(string, Value)>)
    ensures localLogRecord == FieldPairs(attrs, |RequiredFields|)
  {
    RequiredFieldsDistinct();
    localLogRecord := [];
    var j := 0;
    while j < |RequiredFields|
      invariant 0 <= j <= |RequiredFields|
      invariant localLogRecord == FieldPairs(attrs, j)
    {
      var field := RequiredFields[j];
      assert field !in Dicts.Keys(localLogRecord) by {
        forall i | 0 <= i < j ensures Dicts.Keys(localLogRecord)[i] != field {
          assert Dicts.Keys(localLogRecord)[i] == RequiredFields[i];
        }
      }
      Dicts.SetNewKey(localLogRecord, field, GetOrNone(attrs, field));
      localLogRecord := Dicts.Set(localLogRecord, field, GetOrNone(attrs, field));
      j := j + 1;
    }
  }

  /** `JsonArrayFormatter.format(record)`, up to `json.dumps`: `message` is
      what `record.getMessage()` gives and `asctime` what `formatTime` gives. */
  method Format(record: LogRecord, message: string, asctime: string,
                formatException: Value -> string, formatStack: Value -> string)
    returns (out: seq<Value>)
    modifies record
    ensures record.attrs == Dicts.Set(Dicts.Set(old(record.attrs), "message", Str(message)), "asctime", Str(asctime))
    ensures out == FormatSpec(record.attrs, ExtraMessage(record.attrs, formatException, formatStack))
  {
    var attrs := Dicts.Set(record.attrs, "message", Str(message));
    attrs := Dicts.Set(attrs, "asctime", Str(asctime));
    record.attrs := attrs;
    var extraMessageDict := ExtraMessage(attrs, formatException, formatStack);
    var localLogRecord := RequiredFieldsRecord(attrs);
    out := AppendExtra(localLogRecord, extraMessageDict);
  }

  /** `local_log_record["extra"] = extra_message_dict` and the values of the
      ordered dict, on the required fields' part. */
  method AppendExtra(localLogRecord: seq<(string, Value)>, extraMessageDict: seq<(string, Value)>)
    returns (out: seq<Value>)
    requires forall i :: 0 <= i < |localLogRecord| ==> localLogRecord[i].0 in RequiredFields
    ensures out == Dicts.Values(localLogRecord) + [Dict(extraMessageDict)]
  {
    RequiredFieldsDistinct();
    assert "extra" !in Dicts.Keys(localLogRecord) by {
      forall i | 0 <= i < |localLogRecord| ensures Dicts.Keys(localLogRecord)[i] != "extra" {
        assert Dicts.Keys(localLogRecord)[i] == localLogRecord[i].0;
      }
    }
    Dicts.SetNewKey(localLogRecord, "extra", Dict(extraMessageDict));
    var withExtra := Dicts.Set(localLogRecord, "extra", Dict(extraMessageDict));
    out := Dicts.Values(withExtra);
  }
}
