/** The hstore transformer: a list of set and delete operations applied in order to one map, with
    a value holder and a text buffer shared by all of them. */
module Hstore {
  import opened Text
  import Buffers

  const NO_VALUE := "<no value>"

  /** A key is absent, NULL, or has a text. */
  type Entry = Option<Option<string>>

  type Dynamic = map<string, string>

  datatype Executed = Done(text: string) | Failed(partial: string, cause: string)

  /** A parsed template, as a function of what it can ask the value holder for: whether the key
      exists, its value, and the dynamic values. */
  type Template = (bool, Option<string>, Dynamic) -> Executed

  datatype Operation = Operation(operation: string, key: string, value: Option<string>, tmpl: Option<Template>,
                                 errorNotExist: bool, skipNotExist: bool)

  datatype Error = KeyMissing(key: string) | TemplateFailed(key: string, cause: string) | UnknownOperation(name: string)

  // ---------- what the operations mean ----------

  function Lookup(m: map<string, Option<string>>, key: string): Entry {
    if key in m then Some(m[key]) else None
  }

  /** The text a set operation stores; a template without a value stores NULL. */
  function NewValue(op: Operation, e: Entry, dyn: Dynamic): Result<Option<string>, Error> {
    match op.tmpl
    case None => Ok(op.value)
    case Some(t) =>
      match t(e.Some?, if e.Some? then e.value else None, dyn)
      case Done(text) => Ok(if text == NO_VALUE then None else Some(text))
      case Failed(_, cause) => Err(TemplateFailed(op.key, cause))
  }

  /** One operation on the entry of its own key. */
  function StepEntry(op: Operation, e: Entry, dyn: Dynamic): Result<Entry, Error> {
    if e == None && op.skipNotExist then Ok(e)
    else if e == None && op.errorNotExist then Err(KeyMissing(op.key))
    else if op.operation == "set" then
      match NewValue(op, e, dyn)
      case Ok(v) => Ok(Some(v))
      case Err(err) => Err(err)
    else if op.operation == "delete" then Ok(None)
    else Err(UnknownOperation(op.operation))
  }

  /** All operations of a list on one entry. */
  function RunEntry(ops: seq<Operation>, e: Entry, dyn: Dynamic): Result<Entry, Error> {
    if ops == [] then Ok(e)
    else
      match StepEntry(ops[0], e, dyn)
      case Err(err) => Err(err)
      case Ok(next) => RunEntry(ops[1..], next, dyn)
  }

  function OpsFor(ops: seq<Operation>, key: string): seq<Operation> {
    if ops == [] then []
    else (if ops[0].key == key then [ops[0]] else []) + OpsFor(ops[1..], key)
  }

  /** One operation on the whole map. */
  function Step(op: Operation, m: map<string, Option<string>>, dyn: Dynamic)
    : Result<map<string, Option<string>>, Error>
  {
    match StepEntry(op, Lookup(m, op.key), dyn)
    case Err(err) => Err(err)
    case Ok(None) => Ok(m - {op.key})
    case Ok(Some(v)) => Ok(m[op.key := v])
  }

  // ---------- the program ----------

  class HstoreMap {
    var entries: map<string, Option<string>>

    constructor (m: map<string, Option<string>>)
      ensures entries == m
    {
      entries := m;
    }
  }

  class HstoreValue {
    var exists_: bool
    var value: Option<string>
    var dynamicValues: Dynamic

    constructor (dyn: Dynamic)
      ensures dynamicValues == dyn
    {
      exists_, value, dynamicValues := false, None, dyn;
    }

    method SetValue(h: HstoreMap, key: string)
      modifies this`exists_, this`value
      ensures exists_ == Lookup(h.entries, key).Some?
      ensures value == if exists_ then Lookup(h.entries, key).value else None
    {
      if key !in h.entries {
        exists_, value := false, None;
        return;
      }
      exists_, value := true, h.entries[key];
    }
  }

  /** Executing a template appends to the buffer, partially if it fails. */
  method Execute(t: Template, buf: Buffers.Buffer, hv: HstoreValue) returns (cause: Option<string>)
    modifies buf
    ensures match t(hv.exists_, hv.value, hv.dynamicValues)
            case Done(text) => cause == None && buf.data == old(buf.data) + text
            case Failed(partial, c) => cause == Some(c) && buf.data == old(buf.data) + partial
  {
    match t(hv.exists_, hv.value, hv.dynamicValues) {
      case Done(text) =>
        buf.Write(text);
        cause := None;
      case Failed(partial, c) =>
        buf.Write(partial);
        cause := Some(c);
    }
  }

  /** `apply`: what earlier operations left in the buffer plays no part. */
  method Apply(op: Operation, h: HstoreMap, hv: HstoreValue, buf: Buffers.Buffer) returns (err: Option<Error>)
    requires var e := Lookup(h.entries, op.key); hv.exists_ == e.Some? && hv.value == if e.Some? then e.value else None
    requires Lookup(h.entries, op.key).Some? || !(op.skipNotExist || op.errorNotExist)
    modifies h, buf
    ensures match Step(op, old(h.entries), hv.dynamicValues)
            case Ok(m) => err == None && h.entries == m
            case Err(x) => err == Some(x) && h.entries == old(h.entries)
  {
    if op.operation == "set" {
      if op.tmpl.Some? {
        buf.Reset();
        var cause := Execute(op.tmpl.value, buf, hv);
        if cause.Some? {
          return Some(TemplateFailed(op.key, cause.value));
        }
        var newValue := buf.data;
        ghost var executed := op.tmpl.value(hv.exists_, hv.value, hv.dynamicValues);
        assert newValue == "" + executed.text == executed.text;
        if newValue == NO_VALUE {
          h.entries := h.entries[op.key := None];
        } else {
          h.entries := h.entries[op.key := Some(newValue)];
        }
      } else {
        h.entries := h.entries[op.key := op.value];
      }
    } else if op.operation == "delete" {
      h.entries := h.entries - {op.key};
    } else {
      return Some(UnknownOperation(op.operation));
    }
    return None;
  }

  /** The map after the operations, or up to the first failure, and that failure. */
  function Run(ops: seq<Operation>, m: map<string, Option<string>>, dyn: Dynamic)
    : (map<string, Option<string>>, Option<Error>)
  {
    if ops == [] then (m, None)
    else
      match Step(ops[0], m, dyn)
      case Err(err) => (m, Some(err))
      case Ok(next) => Run(ops[1..], next, dyn)
  }

  /** The loop of `Transform`. The map is changed in place, so a caller that handed in its own
      hstore sees the operations before a failure even when it gets an error. */
  method TransformLoop(ops: seq<Operation>, h: HstoreMap, dyn: Dynamic) returns (err: Option<Error>)
    modifies h
    ensures (h.entries, err) == Run(ops, old(h.entries), dyn)
  {
    var hv := new HstoreValue(dyn);
    var buf := new Buffers.Buffer();
    ghost var want := Run(ops, h.entries, dyn);
    assert ops[0..] == ops;
    for i := 0 to |ops|
      invariant hv.dynamicValues == dyn
      invariant Run(ops[i..], h.entries, dyn) == want
    {
      var op := ops[i];
      assert ops[i..][1..] == ops[i + 1..];
      hv.SetValue(h, op.key);
      if !hv.exists_ {
        if op.skipNotExist {
          assert h.entries - {op.key} == h.entries;
          continue;
        }
        if op.errorNotExist {
          return Some(KeyMissing(op.key));
        }
      }
      var failed := Apply(op, h, hv, buf);
      if failed.Some? {
        return failed;
      }
    }
    return None;
  }

  // ---------- keys do not influence one another ----------

  lemma StepLookup(op: Operation, m: map<string, Option<string>>, dyn: Dynamic, key: string)
    ensures Step(op, m, dyn).Ok? <==> StepEntry(op, Lookup(m, op.key), dyn).Ok?
    ensures Step(op, m, dyn).Ok? ==>
              Ok(Lookup(Step(op, m, dyn).value, key)) ==
              if op.key == key then StepEntry(op, Lookup(m, key), dyn) else Ok(Lookup(m, key))
  {
  }

  /** The operations that name a key, run on that key's own entry. */
  function Own(ops: seq<Operation>, m: map<string, Option<string>>, dyn: Dynamic, key: string): Result<Entry, Error> {
    RunEntry(OpsFor(ops, key), Lookup(m, key), dyn)
  }

  lemma OwnUnfold(ops: seq<Operation>, m: map<string, Option<string>>, dyn: Dynamic, key: string)
    requires ops != []
    ensures Step(ops[0], m, dyn).Ok? ==> Own(ops, m, dyn, key) == Own(ops[1..], Step(ops[0], m, dyn).value, dyn, key)
    ensures Step(ops[0], m, dyn).Err? ==> Own(ops, m, dyn, ops[0].key).Err?
  {
    StepLookup(ops[0], m, dyn, key);
    OpsForHead(ops, key);
    OpsForHead(ops, ops[0].key);
  }

  lemma OpsForHead(ops: seq<Operation>, key: string)
    requires ops != []
    ensures if ops[0].key == key
            then OpsFor(ops, key) != [] && OpsFor(ops, key)[0] == ops[0]
                 && OpsFor(ops, key)[1..] == OpsFor(ops[1..], key)
            else OpsFor(ops, key) == OpsFor(ops[1..], key)
  {
  }

  /** The list completes iff each key's own operations do, and then the entry at each key is what
      those operations alone make of it. */
  lemma {:induction false} KeysAreIndependent(ops: seq<Operation>, m: map<string, Option<string>>, dyn: Dynamic)
    ensures Run(ops, m, dyn).1 == None <==> forall key :: Own(ops, m, dyn, key).Ok?
    ensures Run(ops, m, dyn).1 == None ==> forall key :: Own(ops, m, dyn, key) == Ok(Lookup(Run(ops, m, dyn).0, key))
  {
    if ops == [] {
    } else {
      var step := Step(ops[0], m, dyn);
      forall key
        ensures step.Ok? ==> Own(ops, m, dyn, key) == Own(ops[1..], step.value, dyn, key)
      {
        OwnUnfold(ops, m, dyn, key);
      }
      OwnUnfold(ops, m, dyn, ops[0].key);
      if step.Ok? {
        KeysAreIndependent(ops[1..], step.value, dyn);
      }
    }
  }

  /** Keys that no operation names keep their entry, even if the list fails. */
  lemma {:induction false} UnnamedKeysStay(ops: seq<Operation>, m: map<string, Option<string>>, dyn: Dynamic,
                                           key: string)
    requires forall op :: op in ops ==> op.key != key
    ensures Lookup(Run(ops, m, dyn).0, key) == Lookup(m, key)
  {
    if ops == [] || Step(ops[0], m, dyn).Err? {
    } else {
      StepLookup(ops[0], m, dyn, key);
      UnnamedKeysStay(ops[1..], Step(ops[0], m, dyn).value, dyn, key);
    }
  }

  // ---------- what the operations leave ----------

  lemma {:induction false} RunLast(ops: seq<Operation>, op: Operation, m: map<string, Option<string>>, dyn: Dynamic)
    ensures Run(ops + [op], m, dyn) ==
            if Run(ops, m, dyn).1 == None then Run([op], Run(ops, m, dyn).0, dyn) else Run(ops, m, dyn)
  {
    if ops == [] {
      assert ops + [op] == [op];
    } else {
      assert (ops + [op])[1..] == ops[1..] + [op];
      if Step(ops[0], m, dyn).Ok? {
        RunLast(ops[1..], op, Step(ops[0], m, dyn).value, dyn);
      }
    }
  }

  lemma RunOne(op: Operation, m: map<string, Option<string>>, dyn: Dynamic)
    ensures Run([op], m, dyn) == match Step(op, m, dyn)
                                 case Ok(next) => (next, None)
                                 case Err(err) => (m, Some(err))
  {
    assert [op][1..] == [];
  }

  /** A list that ends with a delete leaves no entry at its key, whatever came before, and every other
      entry as it was. */
  lemma LastDelete(ops: seq<Operation>, op: Operation, m: map<string, Option<string>>, dyn: Dynamic)
    requires op.operation == "delete" && Run(ops + [op], m, dyn).1 == None
    ensures Run(ops + [op], m, dyn).0 == Run(ops, m, dyn).0 - {op.key}
  {
    RunLast(ops, op, m, dyn);
    RunOne(op, Run(ops, m, dyn).0, dyn);
    assert op.key !in Run(ops, m, dyn).0 ==> Run(ops, m, dyn).0 - {op.key} == Run(ops, m, dyn).0;
  }

  /** A list that ends with a set leaves its value at the key, NULL if it has none, or what its template
      made of the entry before, with NULL for the text of a missing value. */
  lemma LastSet(ops: seq<Operation>, op: Operation, m: map<string, Option<string>>, dyn: Dynamic)
    requires op.operation == "set" && Run(ops + [op], m, dyn).1 == None
    requires op.key in Run(ops, m, dyn).0 || !op.skipNotExist
    ensures var before, after := Run(ops, m, dyn).0, Run(ops + [op], m, dyn).0;
            && op.key in after && after == before[op.key := after[op.key]]
            && (op.tmpl == None ==> after[op.key] == op.value)
            && (op.tmpl.Some? ==>
                  exists text :: op.tmpl.value(op.key in before, if op.key in before then before[op.key] else None, dyn)
                                 == Done(text)
                    && after[op.key] == if text == "<no value>" then None else Some(text))
  {
    RunLast(ops, op, m, dyn);
    RunOne(op, Run(ops, m, dyn).0, dyn);
  }

  /** At a missing key an operation that skips changes nothing, also when it is to report missing keys;
      one that only reports them fails. */
  lemma MissingKey(op: Operation, m: map<string, Option<string>>, dyn: Dynamic)
    requires op.key !in m
    ensures op.skipNotExist ==> Run([op], m, dyn) == (m, None)
    ensures !op.skipNotExist && op.errorNotExist ==> Run([op], m, dyn) == (m, Some(KeyMissing(op.key)))
  {
    RunOne(op, m, dyn);
    assert m - {op.key} == m;
  }

  /** Without either flag, or with the key there, the list fails at an operation that is not known or
      whose template fails, and only there. */
  lemma FailsHere(op: Operation, m: map<string, Option<string>>, dyn: Dynamic)
    requires op.key in m || !(op.skipNotExist || op.errorNotExist)
    ensures Run([op], m, dyn).1.Some? <==>
            || op.operation !in ["set", "delete"]
            || (op.operation == "set" && op.tmpl.Some?
                && op.tmpl.value(op.key in m, if op.key in m then m[op.key] else None, dyn).Failed?)
  {
    RunOne(op, m, dyn);
  }
}
