// Nested transactions: the branch decisions are flattened into one list of booleans,
// which three recursions walk again, each with its own offset arithmetic.
module Transactions {
  import opened Bytes
  import opened TreeIndices

  datatype KeyValue = KeyValue(value: seq<byte>, lease: int, create: int, mod: int, version: int)

  /** What a transaction sees: the live keys, the revision before it, the first revision
      that is not compacted, the leases that exist and the number of changes so far. */
  datatype Store = Store(kvs: map<Key, KeyValue>, rev: int, firstRev: int, leases: set<int>, changes: nat)

  datatype Target = VALUE | CREATE | MOD | VERSION | LEASE | OTHER_TARGET
  datatype Comparison = EQUAL | NOT_EQUAL | GREATER | LESS | OTHER_RESULT
  datatype Operand = NoOperand | Bytes(bytes: seq<byte>) | Number(target: Target, n: int)
  datatype Compare = Compare(result: Comparison, target: Target, key: Key, rangeEnd: Key, operand: Operand)

  datatype Txn = Txn(compare: seq<Compare>, success: seq<Op>, failure: seq<Op>)
  datatype Op =
    | Range(key: Key, rangeEnd: Key, revision: int)
    | Put(key: Key, value: seq<byte>, lease: int, ignoreValue: bool, ignoreLease: bool)
    | DeleteRange(key: Key, rangeEnd: Key)
    | Sub(txn: Txn)
    | EmptyOp

  datatype Error = KeyNotFound | LeaseNotFound | FutureRev | Compacted

  /** Panic stands for an index out of range as well as for the explicit panics. */
  datatype Result<T> = Ok(value: T) | Err(error: Error) | Panic

  // ----- compares, all of them on the state before the transaction -----

  function MkGteRange(rangeEnd: Key): RangeEnd {
    if rangeEnd == [0] then End([]) else if rangeEnd == [] then Nil else End(rangeEnd)
  }

  function CompareInt64(a: int, b: int): int {
    if a < b then -1 else if a > b then 1 else 0
  }

  function CompareBytes(a: seq<byte>, b: seq<byte>): int {
    if Less(a, b) then -1 else if a == b then 0 else 1
  }

  function CompareKV(c: Compare, kv: KeyValue): bool {
    var n := if c.operand.Number? && c.operand.target == c.target then c.operand.n else 0;
    var result :=
      match c.target
      case VALUE => CompareBytes(kv.value, if c.operand.Bytes? then c.operand.bytes else [])
      case CREATE => CompareInt64(kv.create, n)
      case MOD => CompareInt64(kv.mod, n)
      case VERSION => CompareInt64(kv.version, n)
      case LEASE => CompareInt64(kv.lease, n)
      case OTHER_TARGET => 0;
    match c.result
    case EQUAL => result == 0
    case NOT_EQUAL => result != 0
    case GREATER => result > 0
    case LESS => result < 0
    case OTHER_RESULT => true
  }

  function Keys(s: Store, key: Key, rangeEnd: Key): set<Key> {
    set k | k in s.kvs && InRange(k, key, MkGteRange(rangeEnd))
  }

  predicate ApplyCompare(s: Store, c: Compare) {
    var keys := Keys(s, c.key, c.rangeEnd);
    if keys == {} then c.target != VALUE && CompareKV(c, KeyValue([], 0, 0, 0, 0))
    else forall k :: k in keys ==> CompareKV(c, s.kvs[k])
  }

  predicate ApplyCompares(s: Store, cmps: seq<Compare>) {
    forall i :: 0 <= i < |cmps| ==> ApplyCompare(s, cmps[i])
  }

  // ----- the reference: evaluate the branches directly -----

  function Branch(s: Store, t: Txn): seq<Op> {
    if ApplyCompares(s, t.compare) then t.success else t.failure
  }

  /** The plain operations on the taken branches, in order. */
  function Taken(s: Store, t: Txn): seq<Op>
    decreases t
  {
    if ApplyCompares(s, t.compare) then TakenOps(s, t.success) else TakenOps(s, t.failure)
  }

  function TakenOps(s: Store, ops: seq<Op>): seq<Op>
    decreases ops
  {
    if ops == [] then [] else TakenOp(s, ops[0]) + TakenOps(s, ops[1..])
  }

  function TakenOp(s: Store, op: Op): seq<Op>
    decreases op
  {
    if op.Sub? then Taken(s, op.txn) else [op]
  }

  /** The transactions nested on the taken branches. */
  function Nested(s: Store, t: Txn): nat
    decreases t
  {
    if ApplyCompares(s, t.compare) then NestedOps(s, t.success) else NestedOps(s, t.failure)
  }

  function NestedOps(s: Store, ops: seq<Op>): nat
    decreases ops
  {
    if ops == [] then 0 else NestedOp(s, ops[0]) + NestedOps(s, ops[1..])
  }

  function NestedOp(s: Store, op: Op): nat
    decreases op
  {
    if op.Sub? then 1 + Nested(s, op.txn) else 0
  }

  /** The tree of branch decisions, with one slot per operation; the slot of an empty
      operation stays nil. */
  datatype Response = ForRange | ForPut | ForDelete | NilSlot | Nest(succeeded: bool, responses: seq<Response>)

  function Slot(op: Op): Response {
    match op
    case Range(_, _, _) => ForRange
    case Put(_, _, _, _, _) => ForPut
    case DeleteRange(_, _) => ForDelete
    case _ => NilSlot
  }

  function Shape(s: Store, t: Txn): Response
    decreases t
  {
    var b := ApplyCompares(s, t.compare);
    Nest(b, if b then ShapeOps(s, t.success) else ShapeOps(s, t.failure))
  }

  function ShapeOps(s: Store, ops: seq<Op>): seq<Response>
    decreases ops
  {
    if ops == [] then [] else [ShapeOp(s, ops[0])] + ShapeOps(s, ops[1..])
  }

  function ShapeOp(s: Store, op: Op): Response
    decreases op
  {
    if op.Sub? then Shape(s, op.txn) else Slot(op)
  }

  // ----- the code: one flat list -----

  function CompareToPath(s: Store, t: Txn): seq<bool>
    decreases t
  {
    if ApplyCompares(s, t.compare) then [true] + PathOps(s, t.success) else [false] + PathOps(s, t.failure)
  }

  function PathOps(s: Store, ops: seq<Op>): seq<bool>
    decreases ops
  {
    if ops == [] then [] else PathOp(s, ops[0]) + PathOps(s, ops[1..])
  }

  function PathOp(s: Store, op: Op): seq<bool>
    decreases op
  {
    if op.Sub? then CompareToPath(s, op.txn) else []
  }

  /** newTxnResp: the response tree, and the number of nested transactions seen. */
  function NewTxnResp(t: Txn, path: seq<bool>): Result<(Response, nat)>
    decreases t
  {
    if path == [] then Panic
    else
      var loop := if path[0] then RespOps(t.success, path) else RespOps(t.failure, path);
      match loop
      case Ok((resps, txns)) => Ok((Nest(path[0], resps), txns))
      case Err(e) => Err(e)
      case Panic => Panic
  }

  /** The loop over the remaining operations; path is the code's txnPath variable, whose
      first element is behind it. */
  function RespOps(ops: seq<Op>, path: seq<bool>): Result<(seq<Response>, nat)>
    decreases ops
  {
    if ops == [] then Ok(([], 0))
    else
      match RespOp(ops[0], path)
      case Ok((resp, txns)) =>
        if txns > |path| then Panic
        else
          (match RespOps(ops[1..], path[txns..])
           case Ok((resps, more)) => Ok(([resp] + resps, txns + more))
           case Err(e) => Err(e)
           case Panic => Panic)
      case Err(e) => Err(e)
      case Panic => Panic
  }

  function RespOp(op: Op, path: seq<bool>): Result<(Response, nat)>
    decreases op
  {
    if !op.Sub? then Ok((Slot(op), 0))
    else if path == [] then Panic
    else
      match NewTxnResp(op.txn, path[1..])
      case Ok((resp, txns)) => Ok((resp, txns + 1))
      case Err(e) => Err(e)
      case Panic => Panic
  }

  datatype Check = CheckPut | CheckRange

  /** checkRequestPut and checkRequestRange */
  function CheckOp(s: Store, f: Check, op: Op): Result<()> {
    if f.CheckPut? && op.Put? then
      if (op.ignoreValue || op.ignoreLease) && op.key !in s.kvs then Err(KeyNotFound)
      else if op.lease != 0 && op.lease !in s.leases then Err(LeaseNotFound)
      else Ok(())
    else if f.CheckRange? && op.Range? then
      if op.revision == 0 then Ok(())
      else if op.revision > s.rev then Err(FutureRev)
      else if op.revision < s.firstRev then Err(Compacted)
      else Ok(())
    else Ok(())
  }

  /** checkRequests: the first error in the order of the walk. */
  function CheckRequests(s: Store, t: Txn, path: seq<bool>, f: Check): Result<nat>
    decreases t
  {
    if path == [] then Panic
    else if path[0] then ChecksOps(s, t.success, path, f)
    else ChecksOps(s, t.failure, path, f)
  }

  function ChecksOps(s: Store, ops: seq<Op>, path: seq<bool>, f: Check): Result<nat>
    decreases ops
  {
    if ops == [] then Ok(0)
    else
      match ChecksOp(s, ops[0], path, f)
      case Ok(txns) =>
        if txns > |path| then Panic
        else
          (match ChecksOps(s, ops[1..], path[txns..], f)
           case Ok(more) => Ok(txns + more)
           case Err(e) => Err(e)
           case Panic => Panic)
      case Err(e) => Err(e)
      case Panic => Panic
  }

  function ChecksOp(s: Store, op: Op, path: seq<bool>, f: Check): Result<nat>
    decreases op
  {
    if op.Sub? then
      if path == [] then Panic
      else
        match CheckRequests(s, op.txn, path[1..], f)
        case Ok(txns) => Ok(txns + 1)
        case Err(e) => Err(e)
        case Panic => Panic
    else
      match CheckOp(s, f, op)
      case Ok(_) => Ok(0)
      case Err(e) => Err(e)
      case Panic => Panic
  }

  // ----- the write phase -----

  /** A plain operation on the state so far. A missing previous key, a revision out of
      bounds and a lease that cannot be attached are panics here, and so is an empty
      operation, whose response slot is nil when the loop reads it. */
  function ApplyOp(s: Store, op: Op): Result<Store> {
    match op
    case Range(_, _, rev) =>
      var current := if s.changes > 0 then s.rev + 1 else s.rev;
      if rev > current then Panic
      else if (if rev <= 0 then current else rev) < s.firstRev then Panic
      else Ok(s)
    case Put(key, value, lease, ignoreValue, ignoreLease) =>
      if (ignoreValue || ignoreLease) && key !in s.kvs then Panic
      else
        var val := if ignoreValue then s.kvs[key].value else value;
        var leaseID := if ignoreLease then s.kvs[key].lease else lease;
        if leaseID != 0 && leaseID !in s.leases then Panic
        else
          var create := if key in s.kvs then s.kvs[key].create else s.rev + 1;
          var version := if key in s.kvs then s.kvs[key].version + 1 else 1;
          Ok(s.(kvs := s.kvs[key := KeyValue(val, leaseID, create, s.rev + 1, version)], changes := s.changes + 1))
    case DeleteRange(key, rangeEnd) =>
      var keys := Keys(s, key, rangeEnd);
      Ok(s.(kvs := s.kvs - keys, changes := s.changes + |keys|))
    case Sub(_) => Ok(s)
    case EmptyOp => Panic
  }

  function ApplyAll(s: Store, ops: seq<Op>): Result<Store>
    decreases |ops|
  {
    if ops == [] then Ok(s)
    else
      match ApplyOp(s, ops[0])
      case Ok(next) => ApplyAll(next, ops[1..])
      case Err(e) => Err(e)
      case Panic => Panic
  }

  /** applyTxn: the new state and the number of nested transactions seen. */
  function ApplyTxn(s: Store, t: Txn, path: seq<bool>): Result<(Store, nat)>
    decreases t
  {
    if path == [] then Panic
    else if path[0] then AppliesOps(s, t.success, path)
    else AppliesOps(s, t.failure, path)
  }

  function AppliesOps(s: Store, ops: seq<Op>, path: seq<bool>): Result<(Store, nat)>
    decreases ops
  {
    if ops == [] then Ok((s, 0))
    else
      match AppliesOp(s, ops[0], path)
      case Ok((next, txns)) =>
        if txns > |path| then Panic
        else
          (match AppliesOps(next, ops[1..], path[txns..])
           case Ok((last, more)) => Ok((last, txns + more))
           case Err(e) => Err(e)
           case Panic => Panic)
      case Err(e) => Err(e)
      case Panic => Panic
  }

  function AppliesOp(s: Store, op: Op, path: seq<bool>): Result<(Store, nat)>
    decreases op
  {
    if op.Sub? then
      if path == [] then Panic
      else
        match ApplyTxn(s, op.txn, path[1..])
        case Ok((next, txns)) => Ok((next, txns + 1))
        case Err(e) => Err(e)
        case Panic => Panic
    else
      match ApplyOp(s, op)
      case Ok(next) => Ok((next, 0))
      case Err(e) => Err(e)
      case Panic => Panic
  }

  /** The write transaction that applyTxn changes as it goes. The caller has made sure
      that the walk reaches no panic. */
  class TxnWrite {
    var store: Store

    constructor (s: Store)
      ensures store == s
    {
      store := s;
    }

    method Apply(t: Txn, path: seq<bool>) returns (txns: nat)
      requires ApplyTxn(store, t, path).Ok?
      modifies this
      ensures ApplyTxn(old(store), t, path) == Ok((store, txns))
      decreases t
    {
      var reqs := t.success;
      if !path[0] { reqs := t.failure; }
      var txnPath := path;
      txns := 0;
      assert reqs[0..] == reqs;
      for i := 0 to |reqs|
        invariant AppliesOps(store, reqs[i..], txnPath).Ok?
        invariant var rest := AppliesOps(store, reqs[i..], txnPath).value;
          ApplyTxn(old(store), t, path) == Ok((rest.0, txns + rest.1))
      {
        assert reqs[i..][1..] == reqs[i + 1..];
        var n := ApplyOne(reqs[i], txnPath);
        txns := txns + n;
        txnPath := txnPath[n..];
      }
    }

    method ApplyOne(op: Op, txnPath: seq<bool>) returns (txns: nat)
      requires AppliesOp(store, op, txnPath).Ok?
      modifies this
      ensures AppliesOp(old(store), op, txnPath) == Ok((store, txns))
      decreases op
    {
      if op.Sub? {
        txns := Apply(op.txn, txnPath[1..]);
        txns := txns + 1;
      } else {
        store := ApplyOp(store, op).value;
        txns := 0;
      }
    }
  }

  /** The number a compare looks at, for the targets that are numbers. */
  function Field(target: Target, kv: KeyValue): int {
    match target
    case CREATE => kv.create
    case MOD => kv.mod
    case VERSION => kv.version
    case LEASE => kv.lease
    case _ => 0
  }

  predicate Related(result: Comparison, a: int, b: int) {
    match result
    case EQUAL => a == b
    case NOT_EQUAL => a != b
    case GREATER => a > b
    case LESS => a < b
    case OTHER_RESULT => true
  }

  predicate ValuesRelated(result: Comparison, a: seq<byte>, b: seq<byte>) {
    match result
    case EQUAL => a == b
    case NOT_EQUAL => a != b
    case GREATER => Less(b, a)
    case LESS => Less(a, b)
    case OTHER_RESULT => true
  }

  lemma KeysSelected(s: Store, key: Key, rangeEnd: Key)
    ensures forall k :: k in Keys(s, key, rangeEnd) <==> k in s.kvs && Selects(key, rangeEnd, k)
  {
    assert rangeEnd == [0] <==> |rangeEnd| == 1 && rangeEnd[0] == 0;
  }

  /** A compare of numbers asks its relation of every key in the range, and of 0 when
      there is none; an operand of another kind counts as 0, and so does an unknown
      target. */
  lemma CompareMeans(s: Store, c: Compare)
    requires c.target != VALUE
    ensures
      var n := if c.operand.Number? && c.operand.target == c.target != OTHER_TARGET then c.operand.n else 0;
      ApplyCompare(s, c) <==>
        && (forall k :: k in s.kvs && Selects(c.key, c.rangeEnd, k) ==>
          Related(c.result, Field(c.target, s.kvs[k]), n))
        && ((forall k :: k in s.kvs ==> !Selects(c.key, c.rangeEnd, k)) ==> Related(c.result, 0, n))
  {
    var keys := Keys(s, c.key, c.rangeEnd);
    KeysSelected(s, c.key, c.rangeEnd);
    if keys != {} {
      var k :| k in keys;
      assert k in s.kvs && Selects(c.key, c.rangeEnd, k);
    }
    hide Selects, Keys;
  }

  /** Values are ordered as byte strings, and an operand of another kind is the empty
      one. A compare of values needs a key to compare. */
  lemma CompareValueMeans(s: Store, c: Compare)
    requires c.target == VALUE
    ensures var v := if c.operand.Bytes? then c.operand.bytes else [];
      ApplyCompare(s, c) <==>
        && (exists k :: k in s.kvs && Selects(c.key, c.rangeEnd, k))
        && (forall k :: k in s.kvs && Selects(c.key, c.rangeEnd, k) ==> ValuesRelated(c.result, s.kvs[k].value, v))
  {
    var v := if c.operand.Bytes? then c.operand.bytes else [];
    var keys := Keys(s, c.key, c.rangeEnd);
    KeysSelected(s, c.key, c.rangeEnd);
    forall k | k in keys
      ensures CompareKV(c, s.kvs[k]) <==> ValuesRelated(c.result, s.kvs[k].value, v)
    {
      LessTotal(s.kvs[k].value, v);
    }
    hide Selects, Keys, CompareKV, ValuesRelated;
    if keys != {} {
      var k :| k in keys;
      assert k in s.kvs && Selects(c.key, c.rangeEnd, k);
    }
  }

  /** A list of compares holds if each part of it does; the empty one holds. */
  lemma ComparesSplit(s: Store, a: seq<Compare>, c: Compare)
    ensures ApplyCompares(s, [])
    ensures ApplyCompares(s, a + [c]) <==> ApplyCompares(s, a) && ApplyCompare(s, c)
  {
    if ApplyCompares(s, a + [c]) {
      assert (a + [c])[|a|] == c;
      assert forall i :: 0 <= i < |a| ==> (a + [c])[i] == a[i];
    }
  }

  // ----- the flat list means the same as direct evaluation -----

  lemma {:induction false} PathLength(s: Store, t: Txn)
    ensures |CompareToPath(s, t)| == Nested(s, t) + 1
    decreases t
  {
    PathOpsLength(s, t.success);
    PathOpsLength(s, t.failure);
  }

  lemma {:induction false} PathOpsLength(s: Store, ops: seq<Op>)
    ensures |PathOps(s, ops)| == NestedOps(s, ops)
    decreases ops
  {
    if ops != [] {
      PathOpLength(s, ops[0]);
      PathOpsLength(s, ops[1..]);
    }
  }

  lemma {:induction false} PathOpLength(s: Store, op: Op)
    ensures |PathOp(s, op)| == NestedOp(s, op)
    decreases op
  {
    if op.Sub? { PathLength(s, op.txn); }
  }

  /** What the loop variable txnPath holds before the remaining operations: an element
      that is behind it, the decisions still to come, and those of the callers. */
  ghost predicate At(path: seq<bool>, decisions: seq<bool>, rest: seq<bool>) {
    path != [] && path[1..] == decisions + rest
  }

  lemma AtNext(s: Store, ops: seq<Op>, path: seq<bool>, rest: seq<bool>)
    requires ops != [] && At(path, PathOps(s, ops), rest)
    ensures At(path, PathOp(s, ops[0]), PathOps(s, ops[1..]) + rest)
    ensures NestedOp(s, ops[0]) < |path|
    ensures At(path[NestedOp(s, ops[0])..], PathOps(s, ops[1..]), rest)
  {
    var n := NestedOp(s, ops[0]);
    var a, b := PathOp(s, ops[0]), PathOps(s, ops[1..]);
    PathOpLength(s, ops[0]);
    assert (a + b) + rest == a + (b + rest);
    assert path[n..][1..] == path[1..][n..];
  }

  /** newTxnResp never indexes out of the path, counts the nested transactions on the
      taken branches, and builds the response tree of direct evaluation. */
  lemma {:induction false} RespMeaning(s: Store, t: Txn, path: seq<bool>, rest: seq<bool>)
    requires path == CompareToPath(s, t) + rest
    ensures NewTxnResp(t, path) == Ok((Shape(s, t), Nested(s, t)))
    decreases t
  {
    if ApplyCompares(s, t.compare) {
      assert At(path, PathOps(s, t.success), rest);
      RespOpsMeaning(s, t.success, path, rest);
    } else {
      assert At(path, PathOps(s, t.failure), rest);
      RespOpsMeaning(s, t.failure, path, rest);
    }
  }

  lemma {:induction false} RespOpsMeaning(s: Store, ops: seq<Op>, path: seq<bool>, rest: seq<bool>)
    requires At(path, PathOps(s, ops), rest)
    ensures RespOps(ops, path) == Ok((ShapeOps(s, ops), NestedOps(s, ops)))
    decreases ops
  {
    if ops != [] {
      AtNext(s, ops, path, rest);
      RespOpMeaning(s, ops[0], path, PathOps(s, ops[1..]) + rest);
      RespOpsMeaning(s, ops[1..], path[NestedOp(s, ops[0])..], rest);
    }
  }

  lemma {:induction false} RespOpMeaning(s: Store, op: Op, path: seq<bool>, rest: seq<bool>)
    requires At(path, PathOp(s, op), rest)
    ensures RespOp(op, path) == Ok((ShapeOp(s, op), NestedOp(s, op)))
    decreases op
  {
    if op.Sub? { RespMeaning(s, op.txn, path[1..], rest); }
  }

  /** The first error among plain operations, in order. */
  function FirstError(s: Store, f: Check, ops: seq<Op>): Result<()>
    decreases |ops|
  {
    if ops == [] then Ok(())
    else if CheckOp(s, f, ops[0]).Ok? then FirstError(s, f, ops[1..])
    else CheckOp(s, f, ops[0])
  }

  lemma {:induction false} FirstErrorConcat(s: Store, f: Check, a: seq<Op>, b: seq<Op>)
    ensures FirstError(s, f, a + b) == if FirstError(s, f, a).Ok? then FirstError(s, f, b) else FirstError(s, f, a)
  {
    if a == [] {
      assert a + b == b;
    } else {
      assert (a + b)[1..] == a[1..] + b;
      FirstErrorConcat(s, f, a[1..], b);
    }
  }

  /** How a walk reports what a list of plain operations gives. */
  function WithCount(r: Result<()>, n: nat): Result<nat> {
    match r
    case Ok(_) => Ok(n)
    case Err(e) => Err(e)
    case Panic => Panic
  }

  /** checkRequests checks the taken operations in order, and nothing else. */
  lemma {:induction false} ChecksMeaning(s: Store, t: Txn, path: seq<bool>, rest: seq<bool>, f: Check)
    requires path == CompareToPath(s, t) + rest
    ensures CheckRequests(s, t, path, f) == WithCount(FirstError(s, f, Taken(s, t)), Nested(s, t))
    decreases t
  {
    if ApplyCompares(s, t.compare) {
      assert At(path, PathOps(s, t.success), rest);
      ChecksOpsMeaning(s, t.success, path, rest, f);
    } else {
      assert At(path, PathOps(s, t.failure), rest);
      ChecksOpsMeaning(s, t.failure, path, rest, f);
    }
  }

  lemma {:induction false} ChecksOpsMeaning(s: Store, ops: seq<Op>, path: seq<bool>, rest: seq<bool>, f: Check)
    requires At(path, PathOps(s, ops), rest)
    ensures ChecksOps(s, ops, path, f) == WithCount(FirstError(s, f, TakenOps(s, ops)), NestedOps(s, ops))
    decreases ops
  {
    if ops != [] {
      AtNext(s, ops, path, rest);
      ChecksOpMeaning(s, ops[0], path, PathOps(s, ops[1..]) + rest, f);
      ChecksOpsMeaning(s, ops[1..], path[NestedOp(s, ops[0])..], rest, f);
      FirstErrorConcat(s, f, TakenOp(s, ops[0]), TakenOps(s, ops[1..]));
    }
  }

  lemma {:induction false} ChecksOpMeaning(s: Store, op: Op, path: seq<bool>, rest: seq<bool>, f: Check)
    requires At(path, PathOp(s, op), rest)
    ensures ChecksOp(s, op, path, f) == WithCount(FirstError(s, f, TakenOp(s, op)), NestedOp(s, op))
    decreases op
  {
    if op.Sub? {
      ChecksMeaning(s, op.txn, path[1..], rest, f);
    } else {
      assert [op][1..] == [];
    }
  }

  lemma {:induction false} ApplyAllConcat(s: Store, a: seq<Op>, b: seq<Op>)
    ensures ApplyAll(s, a + b) == if ApplyAll(s, a).Ok? then ApplyAll(ApplyAll(s, a).value, b) else ApplyAll(s, a)
    decreases |a|
  {
    if a == [] {
      assert a + b == b;
    } else {
      assert (a + b)[1..] == a[1..] + b;
      if ApplyOp(s, a[0]).Ok? { ApplyAllConcat(ApplyOp(s, a[0]).value, a[1..], b); }
    }
  }

  function WithState(r: Result<Store>, n: nat): Result<(Store, nat)> {
    match r
    case Ok(s) => Ok((s, n))
    case Err(e) => Err(e)
    case Panic => Panic
  }

  /** applyTxn applies the taken operations in order: every compare is decided on the
      state before the transaction, at any depth, however the state changes meanwhile. */
  lemma {:induction false} ApplyMeaning(pre: Store, s: Store, t: Txn, path: seq<bool>, rest: seq<bool>)
    requires path == CompareToPath(pre, t) + rest
    ensures ApplyTxn(s, t, path) == WithState(ApplyAll(s, Taken(pre, t)), Nested(pre, t))
    decreases t
  {
    if ApplyCompares(pre, t.compare) {
      assert At(path, PathOps(pre, t.success), rest);
      AppliesOpsMeaning(pre, s, t.success, path, rest);
    } else {
      assert At(path, PathOps(pre, t.failure), rest);
      AppliesOpsMeaning(pre, s, t.failure, path, rest);
    }
  }

  lemma {:induction false} AppliesOpsMeaning(pre: Store, s: Store, ops: seq<Op>, path: seq<bool>, rest: seq<bool>)
    requires At(path, PathOps(pre, ops), rest)
    ensures AppliesOps(s, ops, path) == WithState(ApplyAll(s, TakenOps(pre, ops)), NestedOps(pre, ops))
    decreases ops
  {
    if ops != [] {
      AtNext(pre, ops, path, rest);
      AppliesOpMeaning(pre, s, ops[0], path, PathOps(pre, ops[1..]) + rest);
      var first := ApplyAll(s, TakenOp(pre, ops[0]));
      if first.Ok? {
        AppliesOpsMeaning(pre, first.value, ops[1..], path[NestedOp(pre, ops[0])..], rest);
      }
      ApplyAllConcat(s, TakenOp(pre, ops[0]), TakenOps(pre, ops[1..]));
    }
  }

  lemma {:induction false} AppliesOpMeaning(pre: Store, s: Store, op: Op, path: seq<bool>, rest: seq<bool>)
    requires At(path, PathOp(pre, op), rest)
    ensures AppliesOp(s, op, path) == WithState(ApplyAll(s, TakenOp(pre, op)), NestedOp(pre, op))
    decreases op
  {
    if op.Sub? {
      ApplyMeaning(pre, s, op.txn, path[1..], rest);
    } else {
      assert [op][1..] == [];
    }
  }

  // ----- what the plain operations do -----

  /** A deletion takes away the key alone, all keys from it on, or those up to the end,
      and leaves the others as they are. */
  lemma DeletesExactly(s: Store, key: Key, rangeEnd: Key, k: Key)
    ensures ApplyOp(s, DeleteRange(key, rangeEnd)).Ok?
    ensures var t := ApplyOp(s, DeleteRange(key, rangeEnd)).value;
      && (rangeEnd == [] ==> (k in t.kvs <==> k in s.kvs && k != key))
      && (rangeEnd == [0] ==> (k in t.kvs <==> k in s.kvs && Less(k, key)))
      && (rangeEnd != [] && rangeEnd != [0] ==>
            (k in t.kvs <==> k in s.kvs && (Less(k, key) || !Less(k, rangeEnd))))
      && (k in t.kvs ==> t.kvs[k] == s.kvs[k])
      && t == s.(kvs := t.kvs, changes := s.changes + |s.kvs.Keys - t.kvs.Keys|)
  {
    KeysSelected(s, key, rangeEnd);
    assert s.kvs.Keys - (s.kvs - Keys(s, key, rangeEnd)).Keys == Keys(s, key, rangeEnd);
    hide Keys;
  }

  /** A put fails if it needs a missing key or a missing lease. Otherwise it stores its
      value and its lease, or keeps those it is told to keep, and no other key changes. */
  lemma PutStores(s: Store, put: Op, k: Key)
    requires put.Put?
    ensures ApplyOp(s, put).Ok? <==>
      && (put.ignoreValue ==> put.key in s.kvs)
      && (put.ignoreLease ==> put.key in s.kvs && (s.kvs[put.key].lease == 0 || s.kvs[put.key].lease in s.leases))
      && (!put.ignoreLease ==> put.lease == 0 || put.lease in s.leases)
    ensures ApplyOp(s, put).Ok? ==>
      var t := ApplyOp(s, put).value;
      && (k in t.kvs <==> k in s.kvs || k == put.key)
      && (k in s.kvs && k != put.key ==> t.kvs[k] == s.kvs[k])
      && (put.ignoreValue ==> t.kvs[put.key].value == s.kvs[put.key].value)
      && (!put.ignoreValue ==> t.kvs[put.key].value == put.value)
      && (put.ignoreLease ==> t.kvs[put.key].lease == s.kvs[put.key].lease)
      && (!put.ignoreLease ==> t.kvs[put.key].lease == put.lease)
      && t == s.(kvs := t.kvs, changes := s.changes + 1)
  {
  }

  predicate Covers(op: Op, key: Key) {
    op.DeleteRange? && Selects(op.key, op.rangeEnd, key)
  }

  predicate Writes(op: Op, key: Key) {
    op.Put? && op.key == key
  }

  /** The revision that a transaction is about to make can be read by its ranges as soon
      as something has changed, and no later one ever. */
  lemma RangeReadsOwnChanges(s: Store, key: Key, rangeEnd: Key, revision: int)
    requires s.firstRev <= s.rev && 0 <= s.rev && revision > s.rev
    ensures ApplyOp(s, Range(key, rangeEnd, revision)).Ok? <==> revision == s.rev + 1 && s.changes > 0
  {
  }

  ghost function PutsOf(ops: seq<Op>, key: Key): nat
    decreases |ops|
  {
    if ops == [] then 0 else (if Writes(ops[0], key) then 1 else 0) + PutsOf(ops[1..], key)
  }

  /** What happens to a key that a transaction does not delete: each put counts one
      version, the first one fixes the creation, and all of them have the revision of
      the transaction. A key without a put stays as it is. */
  lemma {:induction false} VersionsCount(s: Store, ops: seq<Op>, key: Key)
    requires ApplyAll(s, ops).Ok? && forall i :: 0 <= i < |ops| ==> !Covers(ops[i], key)
    ensures var t, n := ApplyAll(s, ops).value, PutsOf(ops, key);
      && t.rev == s.rev
      && (key in t.kvs <==> key in s.kvs || n > 0)
      && (n == 0 && key in s.kvs ==> t.kvs[key] == s.kvs[key])
      && (n > 0 ==>
            && t.kvs[key].mod == s.rev + 1
            && t.kvs[key].version == (if key in s.kvs then s.kvs[key].version else 0) + n
            && t.kvs[key].create == if key in s.kvs then s.kvs[key].create else s.rev + 1)
    decreases |ops|
  {
    if ops != [] {
      if ops[0].DeleteRange? { KeysSelected(s, ops[0].key, ops[0].rangeEnd); }
      assert forall i :: 0 <= i < |ops| - 1 ==> ops[1..][i] == ops[i + 1];
      VersionsCount(ApplyOp(s, ops[0]).value, ops[1..], key);
      hide Covers, Keys, Selects;
    }
  }

  /** What changes the state: any put, and a deletion that finds a key. */
  ghost predicate Moves(s: Store, op: Op) {
    op.Put? || exists k :: k in s.kvs && Covers(op, k)
  }

  ghost predicate SomeMoves(s: Store, ops: seq<Op>) {
    exists i :: 0 <= i < |ops| && Moves(s, ops[i])
  }

  lemma StepMoves(s: Store, op: Op)
    requires ApplyOp(s, op).Ok?
    ensures var t := ApplyOp(s, op).value; if Moves(s, op) then t.changes > s.changes else t == s
  {
    if op.DeleteRange? {
      KeysSelected(s, op.key, op.rangeEnd);
      var keys := Keys(s, op.key, op.rangeEnd);
      if Moves(s, op) {
        var k :| k in s.kvs && Covers(op, k);
        assert k in keys;
      } else {
        assert keys == {} by {
          forall k | k in keys
            ensures Covers(op, k) && k in s.kvs
          {
          }
        }
      }
    }
  }

  lemma {:induction false} ChangesGrow(s: Store, ops: seq<Op>)
    requires ApplyAll(s, ops).Ok?
    ensures var t := ApplyAll(s, ops).value;
      if SomeMoves(s, ops) then t.changes > s.changes else t == s
    ensures ApplyAll(s, ops).value.changes >= s.changes
    decreases |ops|
  {
    if ops != [] {
      StepMoves(s, ops[0]);
      var next := ApplyOp(s, ops[0]).value;
      ChangesGrow(next, ops[1..]);
      hide ApplyOp, Moves;
      if !Moves(s, ops[0]) {
        assert forall i :: 0 <= i < |ops| - 1 ==> ops[1..][i] == ops[i + 1];
        if i :| 0 <= i < |ops| && Moves(s, ops[i]) { assert Moves(s, ops[1..][i - 1]); }
      } else {
        assert Moves(s, ops[0]);
      }
    }
  }

  /** Each slot of the response is of the kind of its operation. */
  lemma {:induction false} SlotKinds(s: Store, ops: seq<Op>, i: nat)
    requires i < |ops|
    ensures |ShapeOps(s, ops)| == |ops|
    ensures match ops[i]
      case Range(_, _, _) => ShapeOps(s, ops)[i].ForRange?
      case Put(_, _, _, _, _) => ShapeOps(s, ops)[i].ForPut?
      case DeleteRange(_, _) => ShapeOps(s, ops)[i].ForDelete?
      case Sub(t) => ShapeOps(s, ops)[i].Nest? && ShapeOps(s, ops)[i].succeeded == ApplyCompares(s, t.compare)
      case EmptyOp => ShapeOps(s, ops)[i].NilSlot?
    decreases |ops|
  {
    hide ApplyCompares;
    assert ShapeOps(s, ops) == [ShapeOp(s, ops[0])] + ShapeOps(s, ops[1..]);
    if ops[i].Sub? { assert ShapeOp(s, ops[i]) == Shape(s, ops[i].txn); }
    if |ops| > 1 {
      SlotKinds(s, ops[1..], if i == 0 then 0 else i - 1);
      assert i > 0 ==> ops[1..][i - 1] == ops[i];
    }
  }

  // ----- the whole transaction -----

  predicate IsTxnReadonly(t: Txn) {
    (forall i :: 0 <= i < |t.success| ==> t.success[i].Range?) &&
      (forall i :: 0 <= i < |t.failure| ==> t.failure[i].Range?)
  }

  datatype Outcome = Outcome(store: Store, path: seq<bool>, response: Response, revision: int)

  function Finished(s: Store, last: Store, path: seq<bool>, response: Response): Outcome {
    var rev := if last.changes != 0 then s.rev + 1 else s.rev;
    Outcome(last.(rev := rev, changes := 0), path, response, rev)
  }

  /** applierV3backend.Txn. The read-only form leaves the state alone. */
  function RunTxn(s: Store, t: Txn): Result<Outcome> {
    var path := CompareToPath(s, t);
    var puts := if IsTxnReadonly(t) then Ok(0) else CheckRequests(s, t, path, CheckPut);
    if puts.Err? then Err(puts.error)
    else
      var ranges := CheckRequests(s, t, path, CheckRange);
      if ranges.Err? then Err(ranges.error)
      else
        match (NewTxnResp(t, path), ApplyTxn(s, t, path))
        case (Ok((response, _)), Ok((last, _))) =>
          if puts.Ok? && ranges.Ok? then Ok(Finished(s, last, path, response)) else Panic
        case _ => Panic
  }

  /** The same by direct evaluation of the branches, without any path. */
  function DirectTxn(s: Store, t: Txn): Result<Outcome> {
    var ops := Taken(s, t);
    if !IsTxnReadonly(t) && FirstError(s, CheckPut, ops).Err? then Err(FirstError(s, CheckPut, ops).error)
    else if FirstError(s, CheckRange, ops).Err? then Err(FirstError(s, CheckRange, ops).error)
    else
      match ApplyAll(s, ops)
      case Ok(last) => Ok(Finished(s, last, CompareToPath(s, t), Shape(s, t)))
      case _ => Panic
  }

  lemma {:induction false} FirstErrorNoPanic(s: Store, f: Check, ops: seq<Op>)
    ensures !FirstError(s, f, ops).Panic?
    decreases |ops|
  {
    if ops != [] { FirstErrorNoPanic(s, f, ops[1..]); }
  }

  /** The three walks over the flat path agree with direct evaluation, for every nesting. */
  lemma TxnMeaning(s: Store, t: Txn)
    ensures RunTxn(s, t) == DirectTxn(s, t)
  {
    var path := CompareToPath(s, t);
    assert path == path + [];
    RespMeaning(s, t, path, []);
    ChecksMeaning(s, t, path, [], CheckPut);
    ChecksMeaning(s, t, path, [], CheckRange);
    ApplyMeaning(s, s, t, path, []);
    FirstErrorNoPanic(s, CheckPut, Taken(s, t));
    FirstErrorNoPanic(s, CheckRange, Taken(s, t));
    hide Taken, Nested, Shape, CompareToPath, NewTxnResp, ApplyTxn, CheckRequests, FirstError, ApplyAll;
  }

  // ----- the checks make the write phase total, and exactly when -----

  /** Leases that keys are attached to exist, and nothing is compacted ahead of the state. */
  ghost predicate StoreOk(s: Store) {
    && (forall k :: k in s.kvs ==> s.kvs[k].lease == 0 || s.kvs[k].lease in s.leases)
    && s.firstRev <= s.rev && 0 <= s.rev
  }

  /** The last of the first i operations to touch the key has deleted it. */
  ghost predicate Gone(ops: seq<Op>, i: nat, key: Key)
    requires i <= |ops|
  {
    exists j :: 0 <= j < i && Covers(ops[j], key) && forall k :: j < k < i ==> !Writes(ops[k], key)
  }

  predicate Ignoring(op: Op) {
    op.Put? && (op.ignoreValue || op.ignoreLease)
  }

  ghost predicate NeedsGone(ops: seq<Op>, i: nat)
    requires i < |ops|
  {
    Ignoring(ops[i]) && Gone(ops, i, ops[i].key)
  }

  /** What the write phase panics on: an empty operation, and a put that needs what an
      earlier operation has deleted. */
  ghost predicate Stuck(ops: seq<Op>, i: nat)
    requires i < |ops|
  {
    ops[i].EmptyOp? || NeedsGone(ops, i)
  }

  ghost predicate SomeStuck(ops: seq<Op>) {
    exists i :: 0 <= i < |ops| && Stuck(ops, i)
  }

  lemma GoneNext(ops: seq<Op>, i: nat, key: Key)
    requires i < |ops|
    ensures Gone(ops, i + 1, key) <==> Covers(ops[i], key) || (Gone(ops, i, key) && !Writes(ops[i], key))
  {
    if Gone(ops, i + 1, key) && !Covers(ops[i], key) {
      var j :| 0 <= j < i + 1 && Covers(ops[j], key) && forall k :: j < k < i + 1 ==> !Writes(ops[k], key);
      assert j < i;
    }
    if Gone(ops, i, key) && !Writes(ops[i], key) {
      var j :| 0 <= j < i && Covers(ops[j], key) && forall k :: j < k < i ==> !Writes(ops[k], key);
      assert Covers(ops[j], key) && forall k :: j < k < i + 1 ==> !Writes(ops[k], key);
    }
  }

  lemma {:induction false} EachPasses(s: Store, f: Check, ops: seq<Op>)
    ensures FirstError(s, f, ops).Ok? <==> forall i :: 0 <= i < |ops| ==> CheckOp(s, f, ops[i]).Ok?
    decreases |ops|
  {
    if ops != [] {
      EachPasses(s, f, ops[1..]);
      if FirstError(s, f, ops).Ok? {
        forall i | 0 <= i < |ops|
          ensures CheckOp(s, f, ops[i]).Ok?
        {
          assert i > 0 ==> ops[i] == ops[1..][i - 1];
        }
      }
    }
  }

  ghost predicate Checked(s: Store, ops: seq<Op>) {
    forall i :: 0 <= i < |ops| ==> CheckOp(s, CheckPut, ops[i]).Ok? && CheckOp(s, CheckRange, ops[i]).Ok?
  }

  /** The state after the first n operations, as far as later ones depend on it. */
  ghost predicate Reached(pre: Store, ops: seq<Op>, n: nat, s: Store)
    requires n <= |ops|
  {
    && StoreOk(s) && s.rev == pre.rev && s.firstRev == pre.firstRev && s.leases == pre.leases
    && forall key :: key in pre.kvs ==> (key in s.kvs <==> !Gone(ops, n, key))
  }

  lemma OneMore(pre: Store, ops: seq<Op>, n: nat, s: Store)
    requires n < |ops| && Checked(pre, ops) && Reached(pre, ops, n, s)
    ensures ApplyOp(s, ops[n]).Ok? <==> !Stuck(ops, n)
    ensures ApplyOp(s, ops[n]).Ok? ==> Reached(pre, ops, n + 1, ApplyOp(s, ops[n]).value)
  {
    var op := ops[n];
    assert CheckOp(pre, CheckPut, op).Ok? && CheckOp(pre, CheckRange, op).Ok?;
    if ApplyOp(s, op).Ok? {
      var t := ApplyOp(s, op).value;
      if op.DeleteRange? { KeysSelected(s, op.key, op.rangeEnd); }
      forall key | key in pre.kvs
        ensures key in t.kvs <==> !Gone(ops, n + 1, key)
      {
        GoneNext(ops, n, key);
      }
    }
  }

  lemma {:induction false} TotalFrom(pre: Store, ops: seq<Op>, n: nat, s: Store)
    requires n <= |ops| && Checked(pre, ops) && Reached(pre, ops, n, s)
    ensures ApplyAll(s, ops[n..]).Ok? <==> forall i :: n <= i < |ops| ==> !Stuck(ops, i)
    decreases |ops| - n
  {
    if n < |ops| {
      OneMore(pre, ops, n, s);
      assert ops[n..][1..] == ops[n + 1..];
      hide ApplyOp, Stuck, Reached, Checked;
      if ApplyOp(s, ops[n]).Ok? { TotalFrom(pre, ops, n + 1, ApplyOp(s, ops[n]).value); }
    }
  }

  /** When both passes of checks succeed on the state before the transaction, the write
      phase reaches none of its panics at any depth if and only if the taken branches
      hold no empty operation and no put that relies on the previous value or lease
      after a deletion of its key. */
  lemma ChecksMakeWritesTotal(s: Store, t: Txn)
    requires StoreOk(s)
    requires CheckRequests(s, t, CompareToPath(s, t), CheckPut).Ok?
    requires CheckRequests(s, t, CompareToPath(s, t), CheckRange).Ok?
    ensures ApplyTxn(s, t, CompareToPath(s, t)).Ok? <==>
      var ops := Taken(s, t);
      forall i :: 0 <= i < |ops| ==> !ops[i].EmptyOp? && !NeedsGone(ops, i)
  {
    var path, ops := CompareToPath(s, t), Taken(s, t);
    assert path == path + [];
    ChecksMeaning(s, t, path, [], CheckPut);
    ChecksMeaning(s, t, path, [], CheckRange);
    ApplyMeaning(s, s, t, path, []);
    EachPasses(s, CheckPut, ops);
    EachPasses(s, CheckRange, ops);
    hide Taken, Nested, CompareToPath, ApplyTxn, CheckRequests, FirstError, ApplyAll, NeedsGone;
    assert Reached(s, ops, 0, s);
    TotalFrom(s, ops, 0, s);
    assert ops[0..] == ops;
    assert forall i :: 0 <= i < |ops| ==> (Stuck(ops, i) <==> ops[i].EmptyOp? || NeedsGone(ops, i));
  }

  /** The checks let a put or a range through if and only if it can be applied, except
      that they look at a lease even if it is to be ignored, and that a negative revision
      is no request for the latest one. */
  lemma ChecksExactly(s: Store, op: Op)
    requires StoreOk(s) && s.changes == 0 && (op.Put? || op.Range?)
    ensures CheckOp(s, CheckPut, op).Ok? && CheckOp(s, CheckRange, op).Ok? <==>
      && ApplyOp(s, op).Ok?
      && (op.Put? && op.lease != 0 ==> op.lease in s.leases)
      && (op.Range? && op.revision < 0 ==> op.revision >= s.firstRev)
    ensures CheckOp(s, CheckPut, op) == Err(KeyNotFound) <==>
      op.Put? && op.key !in s.kvs && (op.ignoreValue || op.ignoreLease)
    ensures CheckOp(s, CheckPut, op) == Err(LeaseNotFound) <==>
      op.Put? && CheckOp(s, CheckPut, op) != Err(KeyNotFound) && op.lease != 0 && op.lease !in s.leases
    ensures CheckOp(s, CheckRange, op) == Err(FutureRev) <==> op.Range? && op.revision != 0 && op.revision > s.rev
    ensures CheckOp(s, CheckRange, op) == Err(Compacted) <==>
      op.Range? && op.revision != 0 && op.revision <= s.rev && op.revision < s.firstRev
  {
  }

  lemma ReadonlyPasses(s: Store, t: Txn)
    requires IsTxnReadonly(t)
    ensures FirstError(s, CheckPut, Taken(s, t)).Ok?
  {
    RangesTaken(s, Branch(s, t));
    EachPasses(s, CheckPut, Taken(s, t));
    hide ApplyCompares, FirstError;
  }

  lemma {:induction false} RangesTaken(s: Store, ops: seq<Op>)
    requires forall i :: 0 <= i < |ops| ==> ops[i].Range?
    ensures TakenOps(s, ops) == ops
    decreases |ops|
  {
    if ops != [] { RangesTaken(s, ops[1..]); }
  }

  /** A transaction panics if and only if what it takes passes both checks and then holds
      an empty operation, or a put that relies on what an earlier deletion took away. */
  lemma TxnPanicsExactly(s: Store, t: Txn)
    requires StoreOk(s)
    ensures RunTxn(s, t).Panic? <==> Checked(s, Taken(s, t)) && SomeStuck(Taken(s, t))
  {
    var ops := Taken(s, t);
    TxnMeaning(s, t);
    if IsTxnReadonly(t) { ReadonlyPasses(s, t); }
    EachPasses(s, CheckPut, ops);
    EachPasses(s, CheckRange, ops);
    FirstErrorNoPanic(s, CheckPut, ops);
    FirstErrorNoPanic(s, CheckRange, ops);
    assert Checked(s, ops) <==> FirstError(s, CheckPut, ops).Ok? && FirstError(s, CheckRange, ops).Ok?;
    hide Taken, RunTxn, FirstError, ApplyAll, Stuck, Checked, IsTxnReadonly, Shape, CompareToPath, TakenOps;
    assert Reached(s, ops, 0, s);
    hide Reached;
    if Checked(s, ops) { AppliesExactly(s, ops); }
  }

  lemma AppliesExactly(s: Store, ops: seq<Op>)
    requires Checked(s, ops) && Reached(s, ops, 0, s)
    ensures if SomeStuck(ops) then ApplyAll(s, ops).Panic? else ApplyAll(s, ops).Ok?
  {
    hide Checked, Reached, ApplyAll, Stuck;
    assert ops[0..] == ops;
    TotalFrom(s, ops, 0, s);
    NoErrors(s, ops);
  }

  lemma {:induction false} NoErrors(s: Store, ops: seq<Op>)
    ensures !ApplyAll(s, ops).Err?
    decreases |ops|
  {
    if ops != [] && ApplyOp(s, ops[0]).Ok? { NoErrors(ApplyOp(s, ops[0]).value, ops[1..]); }
  }

  /** A transaction takes one new revision if it puts anything or deletes a key that was
      there; otherwise revision and state are what they were. */
  lemma RevisionExactly(s: Store, t: Txn)
    requires RunTxn(s, t).Ok? && s.changes == 0
    ensures var done, ops := RunTxn(s, t).value, Taken(s, t);
      && done.store.rev == done.revision && done.store.changes == 0
      && (if SomeMoves(s, ops) then done.revision == s.rev + 1 else done.revision == s.rev && done.store == s)
  {
    TxnMeaning(s, t);
    hide RunTxn, Taken, SomeMoves, FirstError, ApplyAll, Shape, CompareToPath, IsTxnReadonly;
    ChangesGrow(s, Taken(s, t));
    BoundsKept(s, Taken(s, t));
    assert s.(rev := s.rev, changes := 0) == s;
  }

  /** An empty operation passes both checks; its response slot is nil. */
  lemma EmptyOperationPanics(s: Store)
    ensures var t := Txn([], [EmptyOp], []);
      && CheckRequests(s, t, CompareToPath(s, t), CheckPut).Ok?
      && CheckRequests(s, t, CompareToPath(s, t), CheckRange).Ok?
      && NewTxnResp(t, CompareToPath(s, t)) == Ok((Nest(true, [NilSlot]), 0))
      && RunTxn(s, t) == Panic
  {
    var t := Txn([], [EmptyOp], []);
    assert [EmptyOp][1..] == [];
    assert CompareToPath(s, t) == [true] + [];
    RespMeaning(s, t, CompareToPath(s, t), []);
    assert ShapeOps(s, [EmptyOp]) == [NilSlot] && NestedOps(s, [EmptyOp]) == 0;
    assert Shape(s, t) == Nest(true, [NilSlot]);
    assert TakenOps(s, [EmptyOp]) == [EmptyOp] && Taken(s, t) == [EmptyOp];
    TxnMeaning(s, t);
    assert FirstError(s, CheckPut, [EmptyOp]).Ok? && FirstError(s, CheckRange, [EmptyOp]).Ok?;
    assert ApplyAll(s, [EmptyOp]) == Panic;
  }

  /** Such a transaction passes both checks and then panics. */
  lemma DeletedBeforeIgnoringPut() returns (s: Store, t: Txn)
    ensures StoreOk(s) && t.compare == [] && RunTxn(s, t) == Panic
  {
    s := Store(map[[1] := KeyValue([7], 0, 3, 3, 1)], 5, 1, {}, 0);
    var delete, put := DeleteRange([1], []), Put([1], [], 0, true, false);
    t := Txn([], [delete, put], []);
    TxnMeaning(s, t);
    var ops := t.success;
    assert ops[1..] == [put] && [put][1..] == [];
    assert TakenOps(s, [put]) == [put] && TakenOps(s, ops) == TakenOp(s, delete) + TakenOps(s, [put]);
    assert Taken(s, t) == ops;
    assert !ops[0].Range?;
    hide RunTxn, CompareToPath, Shape, Taken, TakenOps;
    assert CheckOp(s, CheckPut, put).Ok? && FirstError(s, CheckPut, [put]).Ok?;
    assert FirstError(s, CheckPut, ops).Ok?;
    assert FirstError(s, CheckRange, [put]).Ok?;
    assert FirstError(s, CheckRange, ops).Ok?;
    assert [1] in Keys(s, [1], []);
    var next := ApplyOp(s, delete).value;
    assert ApplyOp(next, put) == Panic;
    assert ApplyAll(next, [put]) == Panic;
  }

  // ----- dropping ranges nobody waits for -----

  function WithoutRanges(ops: seq<Op>): seq<Op> {
    if ops == [] then []
    else if ops[|ops| - 1].Range? then WithoutRanges(ops[..|ops| - 1])
    else WithoutRanges(ops[..|ops| - 1]) + [ops[|ops| - 1]]
  }

  function RemoveNeedlessRangeReqs(t: Txn): Txn {
    Txn(t.compare, WithoutRanges(t.success), WithoutRanges(t.failure))
  }

  /** The closure in removeNeedlessRangeReqs, which moves operations down in place. */
  method DropRanges(ops: array<Op>) returns (j: nat)
    modifies ops
    ensures j <= ops.Length && ops[..j] == WithoutRanges(old(ops[..]))
  {
    j := 0;
    for i := 0 to ops.Length
      invariant j <= i
      invariant ops[..j] == WithoutRanges(old(ops[..])[..i])
      invariant forall k :: i <= k < ops.Length ==> ops[k] == old(ops[..])[k]
    {
      assert old(ops[..])[..i + 1][..i] == old(ops[..])[..i];
      if ops[i].Range? { continue; }
      ops[j] := ops[i];
      j := j + 1;
    }
    assert old(ops[..])[..ops.Length] == old(ops[..]);
  }

  lemma {:induction false} TakenOpsConcat(s: Store, a: seq<Op>, b: seq<Op>)
    ensures TakenOps(s, a + b) == TakenOps(s, a) + TakenOps(s, b)
    ensures PathOps(s, a + b) == PathOps(s, a) + PathOps(s, b)
    decreases |a|
  {
    if a == [] {
      assert a + b == b;
    } else {
      assert (a + b)[1..] == a[1..] + b;
      TakenOpsConcat(s, a[1..], b);
    }
  }

  lemma TakenOpsLast(s: Store, ops: seq<Op>)
    requires ops != []
    ensures TakenOps(s, ops) == TakenOps(s, ops[..|ops| - 1]) + TakenOp(s, ops[|ops| - 1])
    ensures PathOps(s, ops) == PathOps(s, ops[..|ops| - 1]) + PathOp(s, ops[|ops| - 1])
  {
    var front, last := ops[..|ops| - 1], [ops[|ops| - 1]];
    assert ops == front + last;
    TakenOpsConcat(s, front, last);
    assert last[1..] == [];
  }

  ghost predicate RangesPass(s: Store, ops: seq<Op>) {
    forall i :: 0 <= i < |ops| && ops[i].Range? ==> CheckOp(s, CheckRange, ops[i]).Ok?
  }

  /** A branch with and without its own ranges. */
  ghost predicate SameEffect(pre: Store, s: Store, all: seq<Op>, kept: seq<Op>) {
    && PathOps(pre, kept) == PathOps(pre, all)
    && FirstError(pre, CheckPut, TakenOps(pre, kept)).Ok? == FirstError(pre, CheckPut, TakenOps(pre, all)).Ok?
    && (FirstError(pre, CheckRange, TakenOps(pre, all)).Ok? <==>
          FirstError(pre, CheckRange, TakenOps(pre, kept)).Ok? && RangesPass(pre, all))
    && (RangesPass(pre, all) ==> ApplyAll(s, TakenOps(pre, kept)) == ApplyAll(s, TakenOps(pre, all)))
  }

  lemma {:induction false} BoundsKept(s: Store, ops: seq<Op>)
    ensures ApplyAll(s, ops).Ok? ==>
      ApplyAll(s, ops).value.rev == s.rev && ApplyAll(s, ops).value.firstRev == s.firstRev
    decreases |ops|
  {
    if ops != [] && ApplyOp(s, ops[0]).Ok? { BoundsKept(ApplyOp(s, ops[0]).value, ops[1..]); }
  }

  lemma {:induction false} RangeChangesNothing(pre: Store, s: Store, op: Op)
    requires op.Range? && CheckOp(pre, CheckRange, op).Ok?
    requires s.rev == pre.rev && s.firstRev == pre.firstRev && s.firstRev <= s.rev && 0 <= s.rev
    ensures ApplyAll(s, [op]) == Ok(s)
  {
    assert [op][1..] == [];
  }

  lemma {:induction false} WithoutRangesSame(pre: Store, s: Store, ops: seq<Op>)
    requires pre.firstRev <= pre.rev && 0 <= pre.rev && s.rev == pre.rev && s.firstRev == pre.firstRev
    ensures SameEffect(pre, s, ops, WithoutRanges(ops))
  {
    if ops != [] {
      var front, last := ops[..|ops| - 1], ops[|ops| - 1];
      var kept := WithoutRanges(front);
      WithoutRangesSame(pre, s, front);
      TakenOpsLast(pre, ops);
      var a, b := TakenOps(pre, front), TakenOp(pre, last);
      FirstErrorConcat(pre, CheckPut, a, b);
      FirstErrorConcat(pre, CheckRange, a, b);
      ApplyAllConcat(s, a, b);
      assert RangesPass(pre, ops) <==>
        RangesPass(pre, front) && (last.Range? ==> CheckOp(pre, CheckRange, last).Ok?) by {
        assert ops == front + [last];
      }
      if last.Range? {
        LastRange(pre, s, a, last);
      } else {
        TakenOpsConcat(pre, kept, [last]);
        assert [last][1..] == [];
        assert TakenOps(pre, [last]) == b && PathOps(pre, [last]) == PathOp(pre, last);
        FirstErrorConcat(pre, CheckPut, TakenOps(pre, kept), b);
        FirstErrorConcat(pre, CheckRange, TakenOps(pre, kept), b);
        ApplyAllConcat(s, TakenOps(pre, kept), b);
      }
      hide TakenOps, PathOps, TakenOp, PathOp, FirstError, ApplyAll, RangesPass, CheckOp;
    }
  }

  lemma LastRange(pre: Store, s: Store, a: seq<Op>, op: Op)
    requires op.Range? && pre.firstRev <= pre.rev && 0 <= pre.rev && s.rev == pre.rev && s.firstRev == pre.firstRev
    ensures FirstError(pre, CheckPut, [op]).Ok?
    ensures FirstError(pre, CheckRange, [op]).Ok? == CheckOp(pre, CheckRange, op).Ok?
    ensures CheckOp(pre, CheckRange, op).Ok? && ApplyAll(s, a).Ok? ==>
      ApplyAll(ApplyAll(s, a).value, [op]) == ApplyAll(s, a)
  {
    assert [op][1..] == [];
    BoundsKept(s, a);
    if CheckOp(pre, CheckRange, op).Ok? && ApplyAll(s, a).Ok? {
      RangeChangesNothing(pre, ApplyAll(s, a).value, op);
    }
  }

  lemma {:induction false} WithoutRangesMembers(ops: seq<Op>)
    ensures forall i :: 0 <= i < |WithoutRanges(ops)| ==> !WithoutRanges(ops)[i].Range?
    ensures WithoutRanges(ops) == [] <==> forall i :: 0 <= i < |ops| ==> ops[i].Range?
  {
    if ops != [] {
      WithoutRangesMembers(ops[..|ops| - 1]);
      assert ops == ops[..|ops| - 1] + [ops[|ops| - 1]];
    }
  }

  lemma ReadonlyKept(t: Txn)
    ensures IsTxnReadonly(RemoveNeedlessRangeReqs(t)) == IsTxnReadonly(t)
  {
    WithoutRangesMembers(t.success);
    WithoutRangesMembers(t.failure);
    var u := RemoveNeedlessRangeReqs(t);
    if u.success != [] { assert !u.success[0].Range?; }
    if u.failure != [] { assert !u.failure[0].Range?; }
  }

  /** With or without the top-level ranges a transaction leaves the same state, path and
      revision whenever it succeeds. It succeeds if and only if it succeeds without them
      and those on the taken branch would have passed the check. */
  lemma DroppingRanges(s: Store, t: Txn)
    requires StoreOk(s)
    ensures var full, dropped := RunTxn(s, t), RunTxn(s, RemoveNeedlessRangeReqs(t));
      && (full.Ok? <==> dropped.Ok? && RangesPass(s, Branch(s, t)))
      && (full.Ok? ==>
            && full.value.store == dropped.value.store
            && full.value.path == dropped.value.path
            && full.value.revision == dropped.value.revision)
  {
    var u := RemoveNeedlessRangeReqs(t);
    TxnMeaning(s, t);
    TxnMeaning(s, u);
    ReadonlyKept(t);
    WithoutRangesSame(s, s, Branch(s, t));
    var all, kept := Branch(s, t), WithoutRanges(Branch(s, t));
    assert Taken(s, t) == TakenOps(s, all) && Taken(s, u) == TakenOps(s, kept);
    assert CompareToPath(s, u) == CompareToPath(s, t);
    FirstErrorNoPanic(s, CheckPut, Taken(s, t));
    FirstErrorNoPanic(s, CheckRange, Taken(s, t));
    FirstErrorNoPanic(s, CheckPut, Taken(s, u));
    FirstErrorNoPanic(s, CheckRange, Taken(s, u));
    hide Taken, TakenOps, CompareToPath, PathOps, FirstError, ApplyAll, RunTxn, RangesPass, IsTxnReadonly,
      RemoveNeedlessRangeReqs, Shape;
  }

  lemma PlainTaken(s: Store, get: Op, put: Op)
    requires get.Range? && put.Put?
    ensures Taken(s, Txn([], [get, put], [])) == [get, put]
    ensures Taken(s, RemoveNeedlessRangeReqs(Txn([], [get, put], []))) == [put]
    ensures !IsTxnReadonly(Txn([], [get, put], []))
  {
    var ops := [get, put];
    assert [get][..0] == [] && WithoutRanges([get]) == [];
    assert ops[..1] == [get] && ops[|ops| - 1] == put;
    assert WithoutRanges(ops) == WithoutRanges([get]) + [put];
    assert RemoveNeedlessRangeReqs(Txn([], ops, [])).success == [put];
    assert ops[1..] == [put] && [put][1..] == [];
    assert TakenOps(s, [put]) == [put];
    assert TakenOps(s, ops) == TakenOp(s, get) + TakenOps(s, [put]);
    assert ops[1] == put;
  }

  lemma PlainApply(s: Store, put: Op)
    requires ApplyOp(s, put).Ok? && CheckOp(s, CheckPut, put).Ok? && CheckOp(s, CheckRange, put).Ok?
    ensures ApplyAll(s, [put]) == ApplyOp(s, put)
    ensures FirstError(s, CheckPut, [put]).Ok? && FirstError(s, CheckRange, [put]).Ok?
  {
    assert [put][1..] == [];
  }

  /** Without that condition the two differ: a member on which the client waits rejects
      this transaction, and one that drops the range applies its put. */
  lemma DroppingRangesDiffers() returns (s: Store, t: Txn)
    ensures StoreOk(s) && RunTxn(s, t) == Err(FutureRev)
    ensures RunTxn(s, RemoveNeedlessRangeReqs(t)).Ok?
    ensures RunTxn(s, RemoveNeedlessRangeReqs(t)).value.store.kvs != s.kvs
  {
    s := Store(map[], 5, 1, {}, 0);
    var get, put := Range([1], [], 100), Put([2], [7], 0, false, false);
    t := Txn([], [get, put], []);
    TxnMeaning(s, t);
    TxnMeaning(s, RemoveNeedlessRangeReqs(t));
    hide RunTxn, CompareToPath, Shape;
    PlainTaken(s, get, put);
    PlainApply(s, put);
    assert [get, put][1..] == [put];
    assert FirstError(s, CheckPut, [get, put]).Ok?;
    assert FirstError(s, CheckRange, [get, put]) == Err(FutureRev);
    assert [2] in ApplyOp(s, put).value.kvs;
    hide Taken, IsTxnReadonly, RemoveNeedlessRangeReqs;
  }
}
