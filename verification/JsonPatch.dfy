/**
 Patches on JSON documents, after vibe/app_server/_patch.py.

 A diff arrives as RFC 6902 operations.  The wire knows no `move` and no `copy`, but it has an
 `append` for growing strings, so each operation is rewritten against the source document before
 it is sent, and applied against the document as it stands when its turn comes.  Pointers are
 sequences of reference tokens, as RFC 6901 section 4 evaluates them.
 */
module JsonPatch {
  import opened Common

  datatype Json =
    | Null
    | Bool(b: bool)
    | Number(n: int)
    | Str(s: string)
    | Arr(items: seq<Json>)
    | Obj(fields: map<string, Json>)

  type Pointer = seq<string>

  datatype PatchError = MissingPath | Conflict | NotStrings | TestFailed

  // ---------- pointers

  predicate IsDigit(c: char) { '0' <= c <= '9' }

  function DigitValue(c: char): nat
    requires IsDigit(c)
  {
    (c - '0') as nat
  }

  /** An array index: `0`, or digits with no leading zero (RFC 6901 section 4). */
  function ArrayIndex(token: string): Option<nat> {
    if token == "" || (|token| > 1 && token[0] == '0') || (exists i :: 0 <= i < |token| && !IsDigit(token[i])) then None
    else Some(DecimalValue(token))
  }

  function DecimalValue(digits: string): nat
    requires forall i :: 0 <= i < |digits| ==> IsDigit(digits[i])
  {
    if digits == "" then 0 else 10 * DecimalValue(digits[..|digits| - 1]) + DigitValue(digits[|digits| - 1])
  }

  function Child(doc: Json, token: string): Option<Json> {
    match doc
    case Obj(fields) => if token in fields then Some(fields[token]) else None
    case Arr(items) =>
      var i := ArrayIndex(token);
      if i.Some? && i.value < |items| then Some(items[i.value]) else None
    case _ => None
  }

  function WithChild(doc: Json, token: string, child: Json): Json
    requires Child(doc, token).Some?
  {
    match doc
    case Obj(fields) => Obj(fields[token := child])
    case Arr(items) => Arr(items[ArrayIndex(token).value := child])
  }

  /** `resolve_pointer`. */
  function Resolve(doc: Json, p: Pointer): Option<Json> {
    if p == [] then Some(doc)
    else match Child(doc, p[0])
      case None => None
      case Some(c) => Resolve(c, p[1..])
  }

  // ---------- the operations of RFC 6902, sections 4.1 to 4.3

  datatype Edit = Adding(value: Json) | Removing | Replacing(value: Json)

  /** The edit at a location of this very container. */
  function EditHere(doc: Json, token: string, edit: Edit): Option<Json> {
    match doc
    case Obj(fields) =>
      if edit.Adding? then Some(Obj(fields[token := edit.value]))
      else if token !in fields then None
      else if edit.Removing? then Some(Obj(fields - {token}))
      else Some(Obj(fields[token := edit.value]))
    case Arr(items) =>
      if edit.Adding? && token == "-" then Some(Arr(items + [edit.value]))
      else
        var i := ArrayIndex(token);
        if i.None? || i.value > |items| || (i.value == |items| && !edit.Adding?) then None
        else if edit.Adding? then Some(Arr(items[..i.value] + [edit.value] + items[i.value..]))
        else if edit.Removing? then Some(Arr(items[..i.value] + items[i.value + 1..]))
        else Some(Arr(items[i.value := edit.value]))
    case _ => None
  }

  function EditAt(doc: Json, p: Pointer, edit: Edit): Option<Json> {
    if p == [] then if edit.Removing? then None else Some(edit.value)
    else if |p| == 1 then EditHere(doc, p[0], edit)
    else match Child(doc, p[0])
      case None => None
      case Some(c) =>
        match EditAt(c, p[1..], edit)
        case None => None
        case Some(child) => Some(WithChild(doc, p[0], child))
  }

  /** What was added or put in place is what the pointer then finds; `-` names no element. */
  lemma {:induction false} EditReadsBack(doc: Json, p: Pointer, edit: Edit)
    requires !edit.Removing? && EditAt(doc, p, edit).Some? && (p == [] || p[|p| - 1] != "-")
    ensures Resolve(EditAt(doc, p, edit).value, p) == Some(edit.value)
  {
    if |p| == 1 {
      assert Child(EditHere(doc, p[0], edit).value, p[0]) == Some(edit.value);
      assert p[1..] == [];
    } else if p != [] {
      var c := Child(doc, p[0]).value;
      EditReadsBack(c, p[1..], edit);
      assert Child(EditAt(doc, p, edit).value, p[0]) == EditAt(c, p[1..], edit);
    }
  }

  /** Nothing stands at the pointer yet, or an array makes room for what comes. */
  predicate Vacant(doc: Json, p: Pointer) {
    p != []
    && if |p| == 1 then p[0] != "-" && !(doc.Obj? && p[0] in doc.fields)
       else Child(doc, p[0]).Some? && Vacant(Child(doc, p[0]).value, p[1..])
  }

  /** Removing what was just added gives the document back. */
  lemma {:induction false} AddThenRemove(doc: Json, p: Pointer, v: Json)
    requires Vacant(doc, p) && EditAt(doc, p, Adding(v)).Some?
    ensures EditAt(EditAt(doc, p, Adding(v)).value, p, Removing) == Some(doc)
  {
    if |p| == 1 {
      AddHereThenRemove(doc, p[0], v);
    } else {
      var c := Child(doc, p[0]).value;
      AddThenRemove(c, p[1..], v);
      ChildPutBack(doc, p[0], EditAt(c, p[1..], Adding(v)).value);
    }
  }

  lemma AddHereThenRemove(doc: Json, token: string, v: Json)
    requires token != "-" && !(doc.Obj? && token in doc.fields) && EditHere(doc, token, Adding(v)).Some?
    ensures EditHere(EditHere(doc, token, Adding(v)).value, token, Removing) == Some(doc)
  {
    match doc
    case Obj(fields) => assert fields[token := v] - {token} == fields;
    case Arr(items) =>
      var i := ArrayIndex(token).value;
      var grown := items[..i] + [v] + items[i..];
      assert grown[..i] + grown[i + 1..] == items;
  }

  lemma ChildPutBack(doc: Json, token: string, x: Json)
    requires Child(doc, token).Some?
    ensures var after := WithChild(doc, token, x);
            Child(after, token) == Some(x) && WithChild(after, token, Child(doc, token).value) == doc
  {
    match doc
    case Obj(fields) => assert fields[token := x][token := fields[token]] == fields;
    case Arr(items) => var i := ArrayIndex(token).value; assert items[i := x][i := items[i]] == items;
  }

  /** The operations the wire carries. */
  datatype Operation =
    | AddOp(path: Pointer, value: Json)
    | RemoveOp(path: Pointer)
    | ReplaceOp(path: Pointer, value: Json)
    | TestOp(path: Pointer, value: Json)
    | AppendOp(path: Pointer, value: Json)

  function Edited(r: Option<Json>): Result<Json, PatchError> {
    match r case None => Err(Conflict) case Some(doc) => Ok(doc)
  }

  /** `jsonpatch` applying one operation it knows. */
  function ApplyStandard(doc: Json, op: Operation): Result<Json, PatchError>
    requires !op.AppendOp?
  {
    match op
    case AddOp(p, v) => Edited(EditAt(doc, p, Adding(v)))
    case RemoveOp(p) => Edited(EditAt(doc, p, Removing))
    case ReplaceOp(p, v) => Edited(EditAt(doc, p, Replacing(v)))
    case TestOp(p, v) => if Resolve(doc, p) == Some(v) then Ok(doc) else Err(TestFailed)
  }

  /** `_standard_operation`: an append becomes the replacement it stands for. */
  function StandardOperation(doc: Json, op: Operation): (r: Result<Operation, PatchError>)
    ensures r.Ok? ==> !r.value.AppendOp?
  {
    if !op.AppendOp? then Ok(op)
    else match Resolve(doc, op.path)
      case None => Err(MissingPath)
      case Some(current) =>
        if current.Str? && op.value.Str? then Ok(ReplaceOp(op.path, Str(current.s + op.value.s))) else Err(NotStrings)
  }

  function ApplyOne(doc: Json, op: Operation): Result<Json, PatchError> {
    match StandardOperation(doc, op)
    case Err(e) => Err(e)
    case Ok(standard) => ApplyStandard(doc, standard)
  }

  function ApplyAll(doc: Json, ops: seq<Operation>): Result<Json, PatchError>
    decreases |ops|
  {
    if ops == [] then Ok(doc)
    else match ApplyOne(doc, ops[0])
      case Err(e) => Err(e)
      case Ok(next) => ApplyAll(next, ops[1..])
  }

  method ApplyJsonPatch(value: Json, operations: seq<Operation>) returns (r: Result<Json, PatchError>)
    ensures r == ApplyAll(value, operations)
  {
    var document := value;
    for k := 0 to |operations|
      invariant ApplyAll(document, operations[k..]) == ApplyAll(value, operations)
    {
      assert operations[k..][1..] == operations[k + 1..];
      var standard := StandardOperation(document, operations[k]);
      if standard.Err? { return Err(standard.error); }
      var next := ApplyStandard(document, standard.value);
      if next.Err? { return next; }
      document := next.value;
    }
    r := Ok(document);
  }

  // ---------- raw patches, and what RFC 6902 says they do

  datatype RawOperation =
    | Plain(op: Operation)                    // add, remove, replace, test
    | Move(from: Pointer, path: Pointer)
    | Copy(from: Pointer, path: Pointer)

  /** Sections 4.4 and 4.5: a move is a removal followed at once by an addition of the value
      removed, never into itself; a copy is an addition of the value found. */
  function RawApply(doc: Json, raw: RawOperation): Result<Json, PatchError> {
    match raw
    case Plain(op) => if op.AppendOp? then Err(Conflict) else ApplyStandard(doc, op)
    case Move(from, path) =>
      if Resolve(doc, from).None? then Err(MissingPath)
      else if from < path then Err(Conflict)
      else
        var without := EditAt(doc, from, Removing);
        if without.None? then Err(Conflict) else Edited(EditAt(without.value, path, Adding(Resolve(doc, from).value)))
    case Copy(from, path) =>
      if Resolve(doc, from).None? then Err(MissingPath)
      else Edited(EditAt(doc, path, Adding(Resolve(doc, from).value)))
  }

  function RawApplyAll(doc: Json, raws: seq<RawOperation>): Result<Json, PatchError>
    decreases |raws|
  {
    if raws == [] then Ok(doc)
    else match RawApply(doc, raws[0])
      case Err(e) => Err(e)
      case Ok(next) => RawApplyAll(next, raws[1..])
  }

  // ---------- rewriting

  /** `_model_operations`: values are read from the source document. */
  function ModelOperations(source: Json, raw: RawOperation): Result<seq<Operation>, PatchError> {
    match raw
    case Plain(op) => Ok([op])
    case Move(from, path) =>
      (match Resolve(source, from)
       case None => Err(MissingPath)
       case Some(v) => Ok([RemoveOp(from), AddOp(path, v)]))
    case Copy(from, path) =>
      (match Resolve(source, from)
       case None => Err(MissingPath)
       case Some(v) => Ok([AddOp(path, v)]))
  }

  /** The operation is a replacement on a path where growth is sent as an append. */
  predicate MayAppend(raw: RawOperation, appendPaths: set<Pointer>) {
    raw.Plain? && raw.op.ReplaceOp? && raw.op.path in appendPaths
  }

  predicate Extends(previous: Json, current: Json) {
    previous.Str? && current.Str? && previous.s <= current.s
  }

  /** One round of `make_json_patch`'s loop. */
  function RewriteOne(source: Json, raw: RawOperation, appendPaths: set<Pointer>): Result<seq<Operation>, PatchError> {
    if !MayAppend(raw, appendPaths) then ModelOperations(source, raw)
    else match Resolve(source, raw.op.path)
      case None => Err(MissingPath)
      case Some(previous) =>
        if Extends(previous, raw.op.value)
        then Ok([AppendOp(raw.op.path, Str(raw.op.value.s[|previous.s|..]))])
        else Ok([raw.op])
  }

  function Prepend(ops: seq<Operation>, r: Result<seq<Operation>, PatchError>): Result<seq<Operation>, PatchError> {
    match r case Err(e) => Err(e) case Ok(more) => Ok(ops + more)
  }

  function RewriteAll(source: Json, raws: seq<RawOperation>, appendPaths: set<Pointer>): Result<seq<Operation>, PatchError>
    decreases |raws|
  {
    if raws == [] then Ok([])
    else match RewriteOne(source, raws[0], appendPaths)
      case Err(e) => Err(e)
      case Ok(ops) => Prepend(ops, RewriteAll(source, raws[1..], appendPaths))
  }

  /** `make_json_patch`, on the raw patch its diff builder found. */
  method MakeJsonPatch(source: Json, raws: seq<RawOperation>, appendPaths: set<Pointer>)
    returns (r: Result<seq<Operation>, PatchError>)
    ensures r == RewriteAll(source, raws, appendPaths)
  {
    var operations: seq<Operation> := [];
    PrependNothing(RewriteAll(source, raws, appendPaths));
    assert raws[0..] == raws;
    for k := 0 to |raws|
      invariant Prepend(operations, RewriteAll(source, raws[k..], appendPaths)) == RewriteAll(source, raws, appendPaths)
    {
      var modeled := ModelOperations(source, raws[k]);
      if modeled.Err? { return Err(modeled.error); }
      NextRewritten(operations, source, raws, k, appendPaths);
      if !(|modeled.value| == 1 && modeled.value[0].ReplaceOp? && modeled.value[0].path in appendPaths) {
        operations := operations + modeled.value;
        continue;
      }
      var previous := Resolve(source, modeled.value[0].path);
      if previous.None? { return Err(MissingPath); }
      var current := modeled.value[0].value;
      if !(previous.value.Str? && current.Str? && previous.value.s <= current.s) {
        operations := operations + modeled.value;
        continue;
      }
      operations := operations + [AppendOp(modeled.value[0].path, Str(current.s[|previous.value.s|..]))];
    }
    assert RewriteAll(source, raws[|raws|..], appendPaths) == Ok([]);
    assert operations + [] == operations;
    r := Ok(operations);
  }

  lemma PrependNothing(r: Result<seq<Operation>, PatchError>)
    ensures Prepend([], r) == r
  {
    if r.Ok? { assert [] + r.value == r.value; }
  }

  lemma NextRewritten(operations: seq<Operation>, source: Json, raws: seq<RawOperation>, k: nat, appendPaths: set<Pointer>)
    requires k < |raws|
    ensures Prepend(operations, RewriteAll(source, raws[k..], appendPaths)) ==
            match RewriteOne(source, raws[k], appendPaths)
            case Err(e) => Err(e)
            case Ok(ops) => Prepend(operations + ops, RewriteAll(source, raws[k + 1..], appendPaths))
  {
    assert raws[k..][1..] == raws[k + 1..];
    var rest := RewriteAll(source, raws[k + 1..], appendPaths);
    match RewriteOne(source, raws[k], appendPaths)
    case Err(_) =>
    case Ok(ops) => if rest.Ok? { ConcatAssociates(operations, ops, rest.value); }
  }

  // ---------- one operation: when rewriting keeps its effect

  /** The location whose source value the rewriting relies on still holds it. */
  predicate StillHolds(source: Json, doc: Json, raw: RawOperation, appendPaths: set<Pointer>) {
    match raw
    case Move(from, _) => Resolve(doc, from) == Resolve(source, from)
    case Copy(from, _) => Resolve(doc, from) == Resolve(source, from)
    case Plain(op) =>
      MayAppend(raw, appendPaths) ==>
        && Resolve(source, op.path).Some?
        && (Extends(Resolve(source, op.path).value, op.value) ==> Resolve(doc, op.path) == Resolve(source, op.path))
  }

  /** Whether an addition or a replacement succeeds does not depend on the value, and different
      values give different documents. */
  lemma {:induction false} EditTellsValuesApart(doc: Json, p: Pointer, a: Edit, b: Edit)
    requires (a.Adding? && b.Adding?) || (a.Replacing? && b.Replacing?)
    ensures EditAt(doc, p, a).Some? <==> EditAt(doc, p, b).Some?
    ensures EditAt(doc, p, a).Some? && EditAt(doc, p, a) == EditAt(doc, p, b) ==> a == b
  {
    if |p| == 1 {
      EditHereTellsValuesApart(doc, p[0], a, b);
    } else if |p| > 1 && Child(doc, p[0]).Some? {
      var c := Child(doc, p[0]).value;
      EditTellsValuesApart(c, p[1..], a, b);
      if EditAt(doc, p, a).Some? {
        var x, y := EditAt(c, p[1..], a).value, EditAt(c, p[1..], b).value;
        assert Child(WithChild(doc, p[0], x), p[0]) == Some(x);
        assert Child(WithChild(doc, p[0], y), p[0]) == Some(y);
      }
    }
  }

  lemma EditHereTellsValuesApart(doc: Json, token: string, a: Edit, b: Edit)
    requires (a.Adding? && b.Adding?) || (a.Replacing? && b.Replacing?)
    ensures EditHere(doc, token, a).Some? <==> EditHere(doc, token, b).Some?
    ensures EditHere(doc, token, a).Some? && EditHere(doc, token, a) == EditHere(doc, token, b) ==> a == b
  {
    if EditHere(doc, token, a).Some? {
      var x, y := EditHere(doc, token, a).value, EditHere(doc, token, b).value;
      match doc
      case Obj(fields) =>
        assert x.fields[token] == a.value && y.fields[token] == b.value;
      case Arr(items) =>
        var i := if a.Adding? && token == "-" then |items| else ArrayIndex(token).value;
        assert x.items[i] == a.value && y.items[i] == b.value;
    }
  }

  lemma ApplyTwo(doc: Json, first: Operation, second: Operation)
    ensures ApplyAll(doc, [first, second]) ==
            match ApplyOne(doc, first) case Err(e) => Err(e) case Ok(next) => ApplyOne(next, second)
  {
    assert [first, second][1..] == [second] && [second][1..] == [];
    match ApplyOne(doc, first)
    case Err(_) =>
    case Ok(next) => assert ApplyAll(next, [second]) == match ApplyOne(next, second) case Err(e) => Err(e) case Ok(d) => ApplyAll(d, []);
  }

  lemma ApplySingle(doc: Json, op: Operation)
    ensures ApplyAll(doc, [op]) == ApplyOne(doc, op)
  {
    assert [op][1..] == [];
  }

  /** Where the raw operation succeeds, its rewriting exists and gives the same document exactly
      when the location it relies on still holds its source value. */
  lemma RewriteOneExactlyWhen(source: Json, doc: Json, raw: RawOperation, appendPaths: set<Pointer>)
    requires RawApply(doc, raw).Ok?
    ensures var ops := RewriteOne(source, raw, appendPaths);
            ops.Ok? && ApplyAll(doc, ops.value) == RawApply(doc, raw) <==> StillHolds(source, doc, raw, appendPaths)
  {
    match raw
    case Move(from, path) =>
      if Resolve(source, from).Some? {
        var there, here := Resolve(source, from).value, Resolve(doc, from).value;
        ApplyTwo(doc, RemoveOp(from), AddOp(path, there));
        EditTellsValuesApart(EditAt(doc, from, Removing).value, path, Adding(there), Adding(here));
      }
    case Copy(from, path) =>
      if Resolve(source, from).Some? {
        var there, here := Resolve(source, from).value, Resolve(doc, from).value;
        ApplySingle(doc, AddOp(path, there));
        EditTellsValuesApart(doc, path, Adding(there), Adding(here));
      }
    case Plain(op) =>
      ApplySingle(doc, op);
      if MayAppend(raw, appendPaths) && Resolve(source, op.path).Some? && Extends(Resolve(source, op.path).value, op.value) {
        AppendExactlyWhen(doc, op.path, Resolve(source, op.path).value.s, op.value.s);
      }
  }

  /** Appending what `current` has beyond `previous` is replacing by `current` exactly when
      `previous` is what is there. */
  lemma AppendExactlyWhen(doc: Json, p: Pointer, previous: string, current: string)
    requires previous <= current && EditAt(doc, p, Replacing(Str(current))).Some?
    ensures ApplyAll(doc, [AppendOp(p, Str(current[|previous|..]))]) == Edited(EditAt(doc, p, Replacing(Str(current))))
            <==> Resolve(doc, p) == Some(Str(previous))
  {
    var suffix := current[|previous|..];
    ApplySingle(doc, AppendOp(p, Str(suffix)));
    assert previous + suffix == current;
    if Resolve(doc, p).Some? && Resolve(doc, p).value.Str? {
      var there := Resolve(doc, p).value.s;
      EditTellsValuesApart(doc, p, Replacing(Str(there + suffix)), Replacing(Str(current)));
      if there + suffix == current {
        assert there == current[..|current| - |suffix|] == previous;
      }
    }
  }

  // ---------- whole patches

  /** Each operation still finds what it relies on when its turn comes. */
  predicate HoldsAlong(source: Json, doc: Json, raws: seq<RawOperation>, appendPaths: set<Pointer>)
    decreases |raws|
  {
    raws == []
    || (StillHolds(source, doc, raws[0], appendPaths)
        && (RawApply(doc, raws[0]).Ok? ==> HoldsAlong(source, RawApply(doc, raws[0]).value, raws[1..], appendPaths)))
  }

  lemma {:induction false} ApplyConcat(doc: Json, a: seq<Operation>, b: seq<Operation>)
    ensures ApplyAll(doc, a + b) == match ApplyAll(doc, a) case Err(e) => Err(e) case Ok(next) => ApplyAll(next, b)
    decreases |a|
  {
    if a == [] {
      assert [] + b == b;
    } else {
      assert (a + b)[1..] == a[1..] + b;
      match ApplyOne(doc, a[0])
      case Err(_) =>
      case Ok(next) => ApplyConcat(next, a[1..], b);
    }
  }

  /** Rewriting a whole patch and applying it gives what applying the raw patch gives. */
  lemma {:induction false} RewritingPreservesPatches(
    source: Json, doc: Json, raws: seq<RawOperation>, appendPaths: set<Pointer>, target: Json)
    requires RawApplyAll(doc, raws) == Ok(target) && HoldsAlong(source, doc, raws, appendPaths)
    ensures RewriteAll(source, raws, appendPaths).Ok?
    ensures ApplyAll(doc, RewriteAll(source, raws, appendPaths).value) == Ok(target)
    decreases |raws|
  {
    if raws != [] {
      var next := RawApply(doc, raws[0]).value;
      RewriteOneExactlyWhen(source, doc, raws[0], appendPaths);
      RewritingPreservesPatches(source, next, raws[1..], appendPaths, target);
      ApplyConcat(doc, RewriteOne(source, raws[0], appendPaths).value, RewriteAll(source, raws[1..], appendPaths).value);
    }
  }

  lemma FirstPrefix(source: Json, doc: Json, raws: seq<RawOperation>, appendPaths: set<Pointer>, k: nat)
    requires 0 < k <= |raws| && RawApply(doc, raws[0]).Ok? && RewriteOne(source, raws[0], appendPaths).Ok?
    requires ApplyAll(doc, RewriteOne(source, raws[0], appendPaths).value) == RawApply(doc, raws[0])
    ensures var next := RawApply(doc, raws[0]).value;
            AgreeOn(source, doc, raws[..k], appendPaths) <==> AgreeOn(source, next, raws[1..][..k - 1], appendPaths)
  {
    var some, rest := raws[..k], raws[1..][..k - 1];
    assert some[0] == raws[0] && some[1..] == rest;
    var more := RewriteAll(source, rest, appendPaths);
    if more.Ok? { ApplyConcat(doc, RewriteOne(source, raws[0], appendPaths).value, more.value); }
  }

  /** The rewriting exists and gives what the raw patch gives. */
  predicate AgreeOn(source: Json, doc: Json, raws: seq<RawOperation>, appendPaths: set<Pointer>) {
    var ops := RewriteAll(source, raws, appendPaths);
    ops.Ok? && ApplyAll(doc, ops.value) == RawApplyAll(doc, raws)
  }

  lemma AgreeOnFirst(source: Json, doc: Json, raws: seq<RawOperation>, appendPaths: set<Pointer>)
    requires raws != [] && RawApply(doc, raws[0]).Ok?
    ensures AgreeOn(source, doc, raws[..1], appendPaths) <==>
            RewriteOne(source, raws[0], appendPaths).Ok?
            && ApplyAll(doc, RewriteOne(source, raws[0], appendPaths).value) == RawApply(doc, raws[0])
  {
    var one := raws[..1];
    assert one[0] == raws[0] && one[1..] == [];
    var ops := RewriteOne(source, raws[0], appendPaths);
    assert RewriteAll(source, [], appendPaths) == Ok([]);
    if ops.Ok? {
      assert ops.value + [] == ops.value;
      assert RewriteAll(source, one, appendPaths) == Ok(ops.value);
    }
    var next := RawApply(doc, raws[0]).value;
    assert RawApplyAll(next, []) == Ok(next);
    assert RawApplyAll(doc, one) == Ok(next);
  }

  /** Where a raw patch succeeds, its rewriting agrees with it at every point, for each of its beginnings,
      if and only if each operation still finds what it relies on when its turn comes. */
  lemma {:induction false} RewritingAgreesThroughoutExactlyWhen(
    source: Json, doc: Json, raws: seq<RawOperation>, appendPaths: set<Pointer>)
    requires RawApplyAll(doc, raws).Ok?
    ensures HoldsAlong(source, doc, raws, appendPaths) <==>
            forall k :: 0 <= k <= |raws| ==> AgreeOn(source, doc, raws[..k], appendPaths)
    decreases |raws|
  {
    assert AgreeOn(source, doc, raws[..0], appendPaths) by { assert raws[..0] == []; }
    if raws != [] {
      var next, rest := RawApply(doc, raws[0]).value, raws[1..];
      RewriteOneExactlyWhen(source, doc, raws[0], appendPaths);
      AgreeOnFirst(source, doc, raws, appendPaths);
      RewritingAgreesThroughoutExactlyWhen(source, next, rest, appendPaths);
      hide AgreeOn;
      hide StillHolds;
      if AgreeOn(source, doc, raws[..1], appendPaths) {
        forall k | 0 < k <= |raws|
          ensures AgreeOn(source, doc, raws[..k], appendPaths) <==> AgreeOn(source, next, rest[..k - 1], appendPaths)
        {
          FirstPrefix(source, doc, raws, appendPaths, k);
        }
        assert forall j :: 0 <= j <= |rest| ==>
          (AgreeOn(source, next, rest[..j], appendPaths) <==> AgreeOn(source, doc, raws[..j + 1], appendPaths));
      }
    }
  }

  /** A diff of two documents, rewritten and applied to the first, yields the second. */
  lemma DiffThenApply(source: Json, target: Json, raws: seq<RawOperation>, appendPaths: set<Pointer>)
    requires RawApplyAll(source, raws) == Ok(target) && HoldsAlong(source, source, raws, appendPaths)
    ensures RewriteAll(source, raws, appendPaths).Ok?
    ensures ApplyAll(source, RewriteAll(source, raws, appendPaths).value) == Ok(target)
  {
    RewritingPreservesPatches(source, source, raws, appendPaths, target);
  }

  /** Why the condition: after the first of two elements is removed, a move of the remaining one
      is rewritten with the value of the one that is gone. */
  lemma ShiftedMoveCarriesTheWrongValue()
    ensures var x, y := Str("x"), Str("y");
            var source := Obj(map["a" := Arr([x, y])]);
            var raws := [Plain(RemoveOp(["a", "0"])), Move(["a", "0"], ["b"])];
            && RawApplyAll(source, raws) == Ok(Obj(map["a" := Arr([]), "b" := y]))
            && RewriteAll(source, raws, {}).Ok?
            && ApplyAll(source, RewriteAll(source, raws, {}).value) == Ok(Obj(map["a" := Arr([]), "b" := x]))
  {
    var x, y := Str("x"), Str("y");
    var source, shifted := Obj(map["a" := Arr([x, y])]), Obj(map["a" := Arr([y])]);
    var emptied := Obj(map["a" := Arr([])]);
    var remove, move := RemoveOp(["a", "0"]), Move(["a", "0"], ["b"]);
    var raws := [Plain(remove), move];
    FirstGoes(x, y);
    assert forall v :: EditAt(emptied, ["b"], Adding(v)) == Some(Obj(map["a" := Arr([]), "b" := v]));
    hide EditAt;
    hide Resolve;
    assert raws[1..] == [move] && [move][1..] == [];
    assert RawApply(source, raws[0]) == Ok(shifted);
    assert RawApplyAll(shifted, [move]) == RawApplyAll(Obj(map["a" := Arr([]), "b" := y]), []);
    RewriteTwo(source, Plain(remove), move, x);
    ApplySingle(source, remove);
    ApplyConcat(source, [remove], [remove, AddOp(["b"], x)]);
    assert [remove] + [remove, AddOp(["b"], x)] == [remove, remove, AddOp(["b"], x)];
    ApplyTwo(shifted, remove, AddOp(["b"], x));
  }

  lemma FirstGoes(x: Json, y: Json)
    ensures var both, one, none := Obj(map["a" := Arr([x, y])]), Obj(map["a" := Arr([y])]), Obj(map["a" := Arr([])]);
            && EditAt(both, ["a", "0"], Removing) == Some(one) && EditAt(one, ["a", "0"], Removing) == Some(none)
            && Resolve(both, ["a", "0"]) == Some(x) && Resolve(one, ["a", "0"]) == Some(y)
  {
    ZeroIsAnIndex();
    assert ["a", "0"][1..] == ["0"] && ["0"][1..] == [];
    assert EditHere(Arr([x, y]), "0", Removing) == Some(Arr([y])) by { assert [x, y][..0] + [x, y][1..] == [y]; }
    assert EditHere(Arr([y]), "0", Removing) == Some(Arr([])) by { assert [y][..0] + [y][1..] == []; }
    assert map["a" := Arr([x, y])]["a" := Arr([y])] == map["a" := Arr([y])];
    assert map["a" := Arr([y])]["a" := Arr([])] == map["a" := Arr([])];
    FirstItem([x, y]);
    FirstItem([y]);
  }

  lemma FirstItem(items: seq<Json>)
    requires items != []
    ensures Resolve(Obj(map["a" := Arr(items)]), ["a", "0"]) == Some(items[0])
  {
    ZeroIsAnIndex();
    assert ["a", "0"][1..] == ["0"] && ["0"][1..] == [];
    assert Child(Arr(items), "0") == Some(items[0]);
    assert Resolve(Arr(items), ["0"]) == Resolve(items[0], []);
  }

  lemma ZeroIsAnIndex()
    ensures ArrayIndex("0") == Some(0)
  {
    assert "0"[..0] == "";
    assert DecimalValue("0") == 10 * DecimalValue("") + 0;
  }

  lemma RewriteTwo(source: Json, first: RawOperation, second: RawOperation, v: Json)
    requires first.Plain? && second.Move? && Resolve(source, second.from) == Some(v)
    ensures RewriteAll(source, [first, second], {}) == Ok([first.op, RemoveOp(second.from), AddOp(second.path, v)])
  {
    assert [first, second][1..] == [second] && [second][1..] == [];
    assert RewriteAll(source, [second], {}) == Prepend([RemoveOp(second.from), AddOp(second.path, v)], RewriteAll(source, [], {}));
    assert [first.op] + ([RemoveOp(second.from), AddOp(second.path, v)] + [])
        == [first.op, RemoveOp(second.from), AddOp(second.path, v)];
  }
}
