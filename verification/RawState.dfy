/**
  The raw state from its writing side: how the desktop spells turns, requests and the state
  around them, what of it may be left out, and what is refused.
 */
module RawState {
  import opened Wrappers
  import opened Json
  import opened Thread
  import opened ConversationState

  /** An option as JSON. */
  function OrNull<T>(encode: T -> Value, o: Option<T>): Value {
    if o.Some? then encode(o.value) else Null
  }

  function WriteString(s: string): Value {
    Str(s)
  }

  function WriteBool(b: bool): Value {
    Bool(b)
  }

  // ----- Fields -----

  lemma {:induction false} DecodeListFails<T>(f: Value -> Option<T>, xs: seq<Value>)
    ensures DecodeList(f, xs).None? <==> exists i :: 0 <= i < |xs| && f(xs[i]).None?
  {
    if xs != [] {
      DecodeListFails(f, xs[1..]);
      if f(xs[0]).Some? && DecodeList(f, xs[1..]).None? {
        var i :| 0 <= i < |xs[1..]| && f(xs[1..][i]).None?;
        assert xs[i + 1] == xs[1..][i];
      }
      forall i | 1 <= i < |xs| && f(xs[i]).None? ensures DecodeList(f, xs[1..]).None? {
        assert xs[1..][i - 1] == xs[i];
      }
    }
  }

  lemma DecodeListIs<T>(f: Value -> Option<T>, xs: seq<Value>, ts: seq<T>)
    ensures DecodeList(f, xs) == Some(ts) <==> |xs| == |ts| && forall i :: 0 <= i < |xs| ==> f(xs[i]) == Some(ts[i])
  {
    if |xs| == |ts| && forall i :: 0 <= i < |xs| ==> f(xs[i]) == Some(ts[i]) {
      DecodeEach(f, xs, ts);
    }
  }

  /** A list field is absent and empty, or an array each of whose elements is read. */
  lemma {:induction false} ListFieldIs<T>(f: Value -> Option<T>, o: Fields, key: string, ts: seq<T>)
    ensures ListField(f, o, key) == Some(ts) <==>
              if key !in o then ts == []
              else o[key].Array? && |o[key].items| == |ts|
                   && forall i :: 0 <= i < |ts| ==> f(o[key].items[i]) == Some(ts[i])
  {
    hide DecodeList;
    if key in o && o[key].Array? {
      DecodeListIs(f, o[key].items, ts);
    }
  }

  /** An optional field is absent or null, and none, or read. */
  lemma OptionalFieldIs<T>(f: Value -> Option<T>, o: Fields, key: string, t: Option<T>)
    ensures OptionalField(f, o, key) == Some(t) <==>
              if key !in o || o[key] == Null then t == None else t.Some? && f(o[key]) == t
  {
  }

  // ----- Turns -----

  function TurnFields(c: Codec, t: DesktopTurn, bare: bool): Fields {
    map["turnId" := OrNull(WriteString, t.turnId),
        "status" := OrNull(WriteString, t.status),
        "error" := OrNull(c.encodeError, t.error),
        "items" := Array(t.items),
        "params" := Object(if bare then map[] else map["input" := Array(Encoded(c.encodeInput, t.input))]),
        "interruptedCommandExecutionItemIds" := Array(Encoded(WriteString, t.interruptedIds))]
  }

  /** Fields may be left out where there is nothing to say; `bare` leaves the input out of the parameters. */
  predicate MayOmit(t: DesktopTurn, bare: bool, omit: set<string>) {
    && ("turnId" in omit ==> t.turnId.None?)
    && ("status" in omit ==> t.status.None?)
    && ("error" in omit ==> t.error.None?)
    && ("items" in omit ==> t.items == [])
    && (bare || "params" in omit ==> t.input == [])
    && ("interruptedCommandExecutionItemIds" in omit ==> t.interruptedIds == [])
  }

  /** A turn is read as it was written, whatever was left out and whatever else is there. */
  lemma {:induction false} DecodeInvertsTurn(
      c: Codec, t: DesktopTurn, bare: bool, omit: set<string>, others: Fields)
    requires Lawful(c) && MayOmit(t, bare, omit)
    requires t.error.Some? ==> Reads(c.decodeError, t.error.value)
    requires forall u :: u in t.input ==> Reads(c.decodeInput, u)
    requires others.Keys !! TurnFields(c, t, bare).Keys
    ensures DecodeTurn(c, Object(others + (TurnFields(c, t, bare) - omit))) == Some(t)
  {
    hide SeedLaw, StatusLaw, ItemLaw, ListField, OptionalField, Encoded, DecodeList;
    var o := others + (TurnFields(c, t, bare) - omit);
    OptionalFieldIs(AsString, o, "turnId", t.turnId);
    OptionalFieldIs(AsString, o, "status", t.status);
    WrittenError(c, t, o);
    ListFieldIs(AsValue, o, "items", t.items);
    WrittenInput(c, t, o, bare);
    ListFieldIs(AsString, o, "interruptedCommandExecutionItemIds", t.interruptedIds);
  }

  lemma WrittenError(c: Codec, t: DesktopTurn, o: Fields)
    requires Lawful(c) && (t.error.Some? ==> Reads(c.decodeError, t.error.value))
    requires if "error" in o then o["error"] == OrNull(c.encodeError, t.error) else t.error.None?
    ensures OptionalField(c.decodeError, o, "error") == Some(t.error)
  {
    hide SeedLaw, StatusLaw, ItemLaw, InputLaw;
    if t.error.Some? {
      assert ErrorLaw(c, t.error.value);
    }
  }

  lemma WrittenInput(c: Codec, t: DesktopTurn, o: Fields, bare: bool)
    requires Lawful(c) && forall u :: u in t.input ==> Reads(c.decodeInput, u)
    requires bare ==> t.input == []
    requires if "params" in o
             then o["params"] == Object(if bare then map[] else map["input" := Array(Encoded(c.encodeInput, t.input))])
             else t.input == []
    ensures DecodeInputs(c, o) == Some(t.input)
  {
    hide SeedLaw, StatusLaw, ItemLaw, ErrorLaw, DecodeList, ListField;
    if "params" in o {
      ListFieldIs(c.decodeInput, o["params"].fields, "input", t.input);
      forall u | u in t.input ensures c.decodeInput(c.encodeInput(u)) == Some(u) {
        assert InputLaw(c, u);
      }
    }
  }

  /** An absent or null field, or a string. */
  predicate TextOrNone(o: Fields, key: string) {
    key in o ==> o[key].Null? || o[key].Str?
  }

  /** An absent list, or an array that `f` reads throughout. */
  predicate ListOrNone<T>(f: Value -> Option<T>, o: Fields, key: string) {
    key in o ==> o[key].Array? && forall v :: v in o[key].items ==> f(v).Some?
  }

  lemma ListReads<T>(f: Value -> Option<T>, o: Fields, key: string)
    ensures ListField(f, o, key).Some? <==> ListOrNone(f, o, key)
  {
    if key in o && o[key].Array? {
      DecodeListFails(f, o[key].items);
    }
  }

  /** A turn is read exactly if it is an object whose fields, where present, have the types they should. */
  lemma {:induction false} TurnReadExactly(c: Codec, v: Value)
    ensures DecodeTurn(c, v).Some? <==>
              && v.Object?
              && TextOrNone(v.fields, "turnId") && TextOrNone(v.fields, "status")
              && ("error" in v.fields ==> v.fields["error"].Null? || c.decodeError(v.fields["error"]).Some?)
              && ("items" in v.fields ==> v.fields["items"].Array?)
              && ("params" in v.fields ==>
                    v.fields["params"].Object? && ListOrNone(c.decodeInput, v.fields["params"].fields, "input"))
              && ("interruptedCommandExecutionItemIds" in v.fields ==>
                    ListOrNone(AsString, v.fields, "interruptedCommandExecutionItemIds"))
  {
    hide ListField;
    if v.Object? {
      ListReads(AsValue, v.fields, "items");
      ListReads(AsString, v.fields, "interruptedCommandExecutionItemIds");
      if "params" in v.fields && v.fields["params"].Object? {
        ListReads(c.decodeInput, v.fields["params"].fields, "input");
      }
    }
  }

  // ----- Requests -----

  function RequestFields(r: DesktopRequest): Fields {
    map["id" := r.id,
        "method" := Str(r.requestMethod),
        "params" := r.params,
        "completed" := OrNull(WriteBool, r.completed)]
  }

  /** A request is read as it was written, whatever was left out and whatever else is there. */
  lemma DecodeInvertsRequest(r: DesktopRequest, omit: set<string>, others: Fields)
    requires ("id" in omit ==> r.id == Null) && ("method" in omit ==> r.requestMethod == "")
    requires ("params" in omit ==> r.params == Null) && ("completed" in omit ==> r.completed.None?)
    requires others.Keys !! RequestFields(r).Keys
    ensures DecodeRequest(Object(others + (RequestFields(r) - omit))) == Some(r)
  {
    hide OptionalField;
    OptionalFieldIs(AsBool, others + (RequestFields(r) - omit), "completed", r.completed);
  }

  /** A request is refused exactly if it is no object, or its method or its mark of completion has the wrong type. */
  lemma RequestReadExactly(v: Value)
    ensures DecodeRequest(v).Some? <==>
              && v.Object?
              && ("method" in v.fields ==> v.fields["method"].Str?)
              && ("completed" in v.fields ==> v.fields["completed"].Null? || v.fields["completed"].Bool?)
  {
  }

  // ----- The state -----

  function StateFields(c: Codec, st: DesktopState, turns: seq<Value>, requests: seq<Value>): Fields {
    map["turns" := Array(turns),
        "threadRuntimeStatus" := OrNull(c.encodeStatus, st.runtimeStatus),
        "resumeState" := OrNull(WriteString, st.resumeState),
        "requests" := Array(requests)]
  }

  /** So is the state around them. */
  lemma {:induction false} DecodeInvertsState(
      c: Codec, st: DesktopState, turns: seq<Value>, requests: seq<Value>, omit: set<string>, others: Fields)
    requires Lawful(c)
    requires |turns| == |st.turns| && forall i :: 0 <= i < |turns| ==> DecodeTurn(c, turns[i]) == Some(st.turns[i])
    requires |requests| == |st.requests|
    requires forall i :: 0 <= i < |requests| ==> DecodeRequest(requests[i]) == Some(st.requests[i])
    requires ("turns" in omit ==> turns == []) && ("requests" in omit ==> requests == [])
    requires "threadRuntimeStatus" in omit ==> st.runtimeStatus.None?
    requires "resumeState" in omit ==> st.resumeState.None?
    requires others.Keys !! StateFields(c, st, turns, requests).Keys
    requires c.othersFit(others + (StateFields(c, st, turns, requests) - omit))
    ensures DecodeState(c, Object(others + (StateFields(c, st, turns, requests) - omit))) == Some(st)
  {
    hide DecodeTurn, DecodeRequest, ListField, SeedLaw, ErrorLaw, ItemLaw, InputLaw;
    var o := others + (StateFields(c, st, turns, requests) - omit);
    ListFieldIs(t => DecodeTurn(c, t), o, "turns", st.turns);
    ListFieldIs(DecodeRequest, o, "requests", st.requests);
    if st.runtimeStatus.Some? {
      assert StatusLaw(c, st.runtimeStatus.value);
    }
  }

  /** The state is read exactly if it is an object whose parts are read and whose other fields have the right types. */
  lemma {:induction false} StateReadExactly(c: Codec, v: Value)
    ensures DecodeState(c, v).Some? <==>
              && v.Object? && c.othersFit(v.fields)
              && ListOrNone(t => DecodeTurn(c, t), v.fields, "turns")
              && ListOrNone(DecodeRequest, v.fields, "requests")
              && TextOrNone(v.fields, "resumeState")
              && ("threadRuntimeStatus" in v.fields ==>
                    v.fields["threadRuntimeStatus"].Null? || c.decodeStatus(v.fields["threadRuntimeStatus"]).Some?)
  {
    hide DecodeTurn, DecodeRequest, ListField;
    if v.Object? {
      ListReads(t => DecodeTurn(c, t), v.fields, "turns");
      ListReads(DecodeRequest, v.fields, "requests");
    }
  }
}
