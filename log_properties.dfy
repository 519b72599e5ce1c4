/** What the logging helpers guarantee, stated over the functions of `Log`
    (which `Log.RedactDictFields` and `Log.Format` are proved to follow). */
module LogProperties {
  import opened Wrappers
  import opened Log
  import Dicts

  // ---------------------------------------------------------------------
  // redact_dict_fields and redact_value

  /** The redacted dict has the same keys in the same order; looking a key up
      gives "REDACTED" for `token` and the redacted value for any other key. */
  lemma RedactedDictLookup(es: seq<(string, Value)>, redact: string -> string, k: string)
    requires Dicts.UniqueKeys(es)
    ensures Dicts.Keys(RedactEntries(es, redact)) == Dicts.Keys(es)
    ensures Dicts.UniqueKeys(RedactEntries(es, redact))
    ensures Dicts.Get(RedactEntries(es, redact), k) ==
      match Dicts.Get(es, k)
      case None => None
      case Some(v) => Some(if k in RedactFields then Str("REDACTED") else RedactValue(v, redact))
  {
    var r := RedactEntries(es, redact);
    assert Dicts.Keys(r) == Dicts.Keys(es);
    if k in Dicts.Keys(es) {
      var i :| 0 <= i < |es| && Dicts.Keys(es)[i] == k;
      Dicts.GetAt(es, i);
      Dicts.GetAt(r, i);
    }
  }

  /** A list keeps its length and order, each element redacted. */
  lemma RedactList(xs: seq<Value>, redact: string -> string)
    ensures RedactValue(List(xs), redact).List?
    ensures |RedactValue(List(xs), redact).elems| == |xs|
    ensures forall i :: 0 <= i < |xs| ==> RedactValue(List(xs), redact).elems[i] == RedactValue(xs[i], redact)
  {
  }

  /** Strings go through the redaction function; values of any other type
      than dict, str or list come back as they are, tuples included (their
      strings are not redacted). */
  lemma RedactScalars(v: Value, redact: string -> string)
    ensures v.Str? ==> RedactValue(v, redact) == Str(redact(v.s))
    ensures v.Int? || v.Bool? || v.Null? || v.Tuple? ==> RedactValue(v, redact) == v
  {
  }

  /** A value redaction leaves alone: its strings are fixed points of
      `redact` and its `token` fields already read "REDACTED" (tuples are
      never looked into). */
  ghost predicate Clean(v: Value, redact: string -> string)
    decreases v
  {
    match v
    case Str(s) => redact(s) == s
    case List(xs) => forall i :: 0 <= i < |xs| ==> Clean(xs[i], redact)
    case Dict(es) => forall i :: 0 <= i < |es| ==>
      if es[i].0 in RedactFields then es[i].1 == Str(Redacted) else Clean(es[i].1, redact)
    case _ => true
  }

  /** Redaction changes a value exactly when it is not clean. */
  lemma {:induction false} RedactFixpoint(v: Value, redact: string -> string)
    ensures RedactValue(v, redact) == v <==> Clean(v, redact)
    decreases v
  {
    match v
    case List(xs) =>
      var ys := RedactValue(v, redact).elems;
      forall i | 0 <= i < |xs| ensures ys[i] == xs[i] <==> Clean(xs[i], redact) {
        RedactFixpoint(xs[i], redact);
      }
      if Clean(v, redact) { assert ys == xs; }
    case Dict(es) =>
      var rs := RedactEntries(es, redact);
      forall i | 0 <= i < |es| && es[i].0 !in RedactFields
        ensures rs[i] == es[i] <==> Clean(es[i].1, redact)
      {
        RedactFixpoint(es[i].1, redact);
      }
      if Clean(v, redact) { assert rs == es; }
      if rs == es {
        forall i | 0 <= i < |es| ensures
          if es[i].0 in RedactFields then es[i].1 == Str(Redacted) else Clean(es[i].1, redact)
        {
          assert rs[i] == es[i];
        }
      }
    case _ =>
  }

  /** With an idempotent string redaction, a redacted value is clean. */
  lemma {:induction false} RedactedIsClean(v: Value, redact: string -> string)
    requires forall s :: redact(redact(s)) == redact(s)
    ensures Clean(RedactValue(v, redact), redact)
    decreases v
  {
    match v
    case List(xs) =>
      forall i | 0 <= i < |xs| ensures Clean(RedactValue(xs[i], redact), redact) {
        RedactedIsClean(xs[i], redact);
      }
    case Dict(es) =>
      forall i | 0 <= i < |es| && es[i].0 !in RedactFields ensures Clean(RedactValue(es[i].1, redact), redact) {
        RedactedIsClean(es[i].1, redact);
      }
    case _ =>
  }

  /** Redacting twice is redacting once, when the string redaction is. */
  lemma RedactIdempotent(v: Value, redact: string -> string)
    requires forall s :: redact(redact(s)) == redact(s)
    ensures RedactValue(RedactValue(v, redact), redact) == RedactValue(v, redact)
  {
    RedactedIsClean(v, redact);
    RedactFixpoint(RedactValue(v, redact), redact);
  }

  // ---------------------------------------------------------------------
  // The formatter and with_extra

  /** The formatter's array has seven elements: `asctime`, `levelname`,
      `name`, `funcName`, `lineno`, `message`, then the extra dict. The time
      and the message are the ones `format` has just set on the record. */
  lemma FormatOrder(attrs0: seq<(string, Value)>, message: string, asctime: string,
                    extraMessage: seq<(string, Value)>)
    ensures var attrs := Dicts.Set(Dicts.Set(attrs0, "message", Str(message)), "asctime", Str(asctime));
      var out := FormatSpec(attrs, extraMessage);
      && |out| == 7
      && out[0] == Str(asctime)
      && out[1] == GetOrNone(attrs0, "levelname")
      && out[2] == GetOrNone(attrs0, "name")
      && out[3] == GetOrNone(attrs0, "funcName")
      && out[4] == GetOrNone(attrs0, "lineno")
      && out[5] == Str(message)
      && out[6] == Dict(extraMessage)
  {
    var attrs := Dicts.Set(Dicts.Set(attrs0, "message", Str(message)), "asctime", Str(asctime));
    FormatSpecShape(attrs, extraMessage);
    TimeAndMessageSet(attrs0, message, asctime, "levelname");
    TimeAndMessageSet(attrs0, message, asctime, "name");
    TimeAndMessageSet(attrs0, message, asctime, "funcName");
    TimeAndMessageSet(attrs0, message, asctime, "lineno");
  }

  /** After `format` sets the message and the time on the record, these two
      read as set and every other attribute as before. */
  lemma TimeAndMessageSet(attrs0: seq<(string, Value)>, message: string, asctime: string, f: string)
    ensures var attrs := Dicts.Set(Dicts.Set(attrs0, "message", Str(message)), "asctime", Str(asctime));
      && GetOrNone(attrs, "asctime") == Str(asctime)
      && GetOrNone(attrs, "message") == Str(message)
      && (f != "asctime" && f != "message" ==> GetOrNone(attrs, f) == GetOrNone(attrs0, f))
  {
    var attrs1 := Dicts.Set(attrs0, "message", Str(message));
    Dicts.SetGet(attrs1, "asctime", Str(asctime), "asctime");
    Dicts.SetGet(attrs1, "asctime", Str(asctime), "message");
    Dicts.SetGet(attrs0, "message", Str(message), "message");
    Dicts.SetGet(attrs1, "asctime", Str(asctime), f);
    Dicts.SetGet(attrs0, "message", Str(message), f);
  }

  /** The array holds each required field's value, in order, then the extra dict. */
  lemma FormatSpecShape(attrs: seq<(string, Value)>, extraMessage: seq<(string, Value)>)
    ensures var out := FormatSpec(attrs, extraMessage);
      && |out| == |RequiredFields| + 1
      && (forall i :: 0 <= i < |RequiredFields| ==> out[i] == GetOrNone(attrs, RequiredFields[i]))
      && out[|RequiredFields|] == Dict(extraMessage)
  {
    var pairs := FieldPairs(attrs, |RequiredFields|);
    assert forall i :: 0 <= i < |RequiredFields| ==> Dicts.Values(pairs)[i] == pairs[i].1;
  }

  /** The record's `extra` dict, when non-empty, overrides everything else
      in the extra dict: each of its keys maps there to its own value. */
  lemma ExtraOverrides(attrs: seq<(string, Value)>, formatException: Value -> string,
                       formatStack: Value -> string, k: string)
    requires GetOrNone(attrs, "extra").Dict? && GetOrNone(attrs, "extra").entries != []
    requires Dicts.UniqueKeys(GetOrNone(attrs, "extra").entries)
    requires k in Dicts.Keys(GetOrNone(attrs, "extra").entries)
    ensures Dicts.Get(ExtraMessage(attrs, formatException, formatStack), k) ==
            Dicts.Get(GetOrNone(attrs, "extra").entries, k)
  {
    MergeExtraOverrides(BaseExtraMessage(attrs, formatException, formatStack), GetOrNone(attrs, "extra"), k);
  }

  /** Merging a non-empty dict `extra` into `base`: a key of `extra` maps to
      its value there, any other key keeps its value in `base`. */
  lemma MergeExtraOverrides(base: seq<(string, Value)>, extra: Value, k: string)
    requires extra.Dict? && extra.entries != [] && Dicts.UniqueKeys(extra.entries)
    ensures Dicts.Get(MergeExtra(base, extra), k) ==
            if k in Dicts.Keys(extra.entries) then Dicts.Get(extra.entries, k) else Dicts.Get(base, k)
  {
    Dicts.UpdateGet(base, extra.entries, k);
  }

  /** Without an `exc_info` key in the record's `extra`, the extra dict's
      `exc_info` is the formatted exception, or `exc_text` when the formatted
      exception is empty or there is no exception. */
  lemma ExcInfoChoice(attrs: seq<(string, Value)>, formatException: Value -> string,
                      formatStack: Value -> string)
    requires var extra := GetOrNone(attrs, "extra");
      !(Truthy(extra) && extra.Dict?) || "exc_info" !in Dicts.Keys(extra.entries)
    requires var extra := GetOrNone(attrs, "extra"); extra.Dict? ==> Dicts.UniqueKeys(extra.entries)
    ensures var excInfo := GetOrNone(attrs, "exc_info");
      var excText := GetOrNone(attrs, "exc_text");
      var formatted := Str(formatException(excInfo));
      Dicts.Get(ExtraMessage(attrs, formatException, formatStack), "exc_info") ==
        if Truthy(excInfo) && Truthy(formatted) then Some(formatted)
        else if Truthy(excText) then Some(excText)
        else if Truthy(excInfo) then Some(formatted)
        else None
  {
    BaseExcInfo(attrs, formatException, formatStack);
    var extra := GetOrNone(attrs, "extra");
    if Truthy(extra) && extra.Dict? {
      Dicts.UpdateGet(BaseExtraMessage(attrs, formatException, formatStack), extra.entries, "exc_info");
    }
  }

  /** The `exc_info` entry of the extra dict before the record's own `extra`
      is merged in. */
  lemma BaseExcInfo(attrs: seq<(string, Value)>, formatException: Value -> string, formatStack: Value -> string)
    ensures var excInfo := GetOrNone(attrs, "exc_info");
      var excText := GetOrNone(attrs, "exc_text");
      var formatted := Str(formatException(excInfo));
      Dicts.Get(BaseExtraMessage(attrs, formatException, formatStack), "exc_info") ==
        if Truthy(excInfo) && Truthy(formatted) then Some(formatted)
        else if Truthy(excText) then Some(excText)
        else if Truthy(excInfo) then Some(formatted)
        else None
  {
    var excInfo := GetOrNone(attrs, "exc_info");
    var formatted := Str(formatException(excInfo));
    var m1: seq<(string, Value)> := if Truthy(excInfo) then Dicts.Set([], "exc_info", formatted) else [];
    assert Dicts.Get(m1, "exc_info") == if Truthy(excInfo) then Some(formatted) else None;
    var excText := GetOrNone(attrs, "exc_text");
    var m2 := if !Truthy(GetOrNone(m1, "exc_info")) && Truthy(excText) then Dicts.Set(m1, "exc_info", excText) else m1;
    Dicts.SetGet(m1, "exc_info", excText, "exc_info");
    var stackInfo := GetOrNone(attrs, "stack_info");
    Dicts.SetGet(m2, "stack_info", Str(formatStack(stackInfo)), "exc_info");
    assert BaseExtraMessage(attrs, formatException, formatStack) ==
      if Truthy(stackInfo) then Dicts.Set(m2, "stack_info", Str(formatStack(stackInfo))) else m2;
  }

  /** `with_extra(**kw)` passed to a logging call makes `kw` the record's
      `extra` attribute, and each keyword then appears in the formatter's
      extra dict with its value. */
  lemma WithExtraReachesFormatter(attrs0: seq<(string, Value)>, kw: seq<(string, Value)>,
                                  formatException: Value -> string, formatStack: Value -> string, k: string)
    requires kw != [] && Dicts.UniqueKeys(kw) && k in Dicts.Keys(kw)
    ensures GetOrNone(AddExtraAttributes(attrs0, WithExtra(kw)), "extra") == Dict(kw)
    ensures Dicts.Get(ExtraMessage(AddExtraAttributes(attrs0, WithExtra(kw)), formatException, formatStack), k) ==
            Dicts.Get(kw, k)
  {
    var inner := [("extra", Dict(kw))];
    assert GetOrNone([("extra", Dict(inner))], "extra") == Dict(inner);
    Dicts.UpdateGet(attrs0, inner, "extra");
    ExtraOverrides(AddExtraAttributes(attrs0, WithExtra(kw)), formatException, formatStack, k);
  }
}
