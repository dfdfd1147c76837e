/**
 What a folded batch does to each layer it is written to, compared with making the layer's writes
 one at a time.

 The fold keys its upserts by the layer as the write names it, and a write that names none goes to
 the default layer.  So a model written under both names gets two upserts in one layer, and the
 later one replaces the entry the earlier one made.
 */
module ConfigWriteMeaning {
  import opened Common
  import opened Strings
  import opened JsonPatch
  import opened ConfigWrite

  // ---------- applying patch operations to a layer's document

  /** `~` stands only before `0` or `1`. */
  predicate WellEscaped(token: string) {
    forall i :: 0 <= i < |token| && token[i] == '~' ==> i + 1 < |token| && (token[i + 1] == '0' || token[i + 1] == '1')
  }

  /** A JSON Pointer's tokens, for a pointer that is one. */
  function ParsePointer(path: string): Option<Pointer> {
    if path == "" then Some([])
    else
      var parts := Split(path, '/');
      if parts[0] != "" || exists i :: 0 <= i < |parts| && !WellEscaped(parts[i]) then None
      else Some(seq(|parts| - 1, i requires 0 <= i < |parts| - 1 => UnescapeToken(parts[i + 1])))
  }

  function ApplyPatchOp(doc: Json, op: PatchOp): Option<Json> {
    match ParsePointer(op.path)
    case None => None
    case Some(p) => EditAt(doc, p, if op.AddPatch? then Adding(op.value) else Removing)
  }

  function ApplyPatches(doc: Json, ops: seq<PatchOp>): Option<Json> {
    if ops == [] then Some(doc)
    else match ApplyPatches(doc, ops[..|ops| - 1])
      case None => None
      case Some(d) => ApplyPatchOp(d, ops[|ops| - 1])
  }

  // ---------- the layers of a batch

  /** One layer, and the layer that operations without one go to. */
  datatype Destination = Destination(name: string, fallback: string) {
    predicate Takes(layer: Layer) { name == if layer.None? then fallback else layer.value }
  }

  /** The operations of a patch that go to one layer, in order. */
  function OpsFor(ops: seq<PatchOp>, dest: Destination): seq<PatchOp> {
    if ops == [] then []
    else
      var last := ops[|ops| - 1];
      OpsFor(ops[..|ops| - 1], dest) + if dest.Takes(last.layer) then [last] else []
  }

  function LayerOf(w: Write): Layer { if w.FieldWrite? then w.target.layer else w.op.layer }

  function WritesFor(writes: seq<Write>, dest: Destination): seq<Write> {
    if writes == [] then []
    else
      var last := writes[|writes| - 1];
      WritesFor(writes[..|writes| - 1], dest) + if dest.Takes(LayerOf(last)) then [last] else []
  }

  function TargetsFor(targets: seq<Target>, dest: Destination): seq<Target> {
    if targets == [] then []
    else
      var last := targets[|targets| - 1];
      TargetsFor(targets[..|targets| - 1], dest) + if dest.Takes(last.layer) then [last] else []
  }

  lemma OpsForSnoc(ops: seq<PatchOp>, op: PatchOp, dest: Destination)
    ensures OpsFor(ops + [op], dest) == OpsFor(ops, dest) + if dest.Takes(op.layer) then [op] else []
  {
    assert (ops + [op])[..|ops|] == ops;
  }

  lemma TargetsForSnoc(targets: seq<Target>, t: Target, dest: Destination)
    ensures TargetsFor(targets + [t], dest) == TargetsFor(targets, dest) + if dest.Takes(t.layer) then [t] else []
  {
    assert (targets + [t])[..|targets|] == targets;
  }

  lemma {:induction false} OpsForConcat(a: seq<PatchOp>, b: seq<PatchOp>, dest: Destination)
    ensures OpsFor(a + b, dest) == OpsFor(a, dest) + OpsFor(b, dest)
  {
    if b == [] {
      assert a + b == a;
    } else {
      var front, last := b[..|b| - 1], b[|b| - 1];
      assert a + b == (a + front) + [last];
      OpsForConcat(a, front, dest);
      OpsForSnoc(a + front, last, dest);
      ConcatAssociates(OpsFor(a, dest), OpsFor(front, dest), if dest.Takes(last.layer) then [last] else []);
    }
  }

  lemma {:induction false} TargetsForKeeps(targets: seq<Target>, dest: Destination, t: Target)
    ensures t in TargetsFor(targets, dest) <==> t in targets && dest.Takes(t.layer)
  {
    if targets != [] {
      TargetsForKeeps(targets[..|targets| - 1], dest, t);
      assert targets == targets[..|targets| - 1] + [targets[|targets| - 1]];
    }
  }

  /** The writes for a layer pass on its operations, in order. */
  lemma {:induction false} OthersFor(writes: seq<Write>, dest: Destination)
    ensures OthersOf(WritesFor(writes, dest)) == OpsFor(OthersOf(writes), dest)
  {
    if writes != [] {
      var front, last := writes[..|writes| - 1], writes[|writes| - 1];
      OthersFor(front, dest);
      WritesSnoc(WritesFor(front, dest), last, Target(None, ""));
      if last.PassedOn? {
        OpsForSnoc(OthersOf(front), last.op, dest);
      } else {
        assert OthersOf(front) + [] == OthersOf(front);
      }
      if !dest.Takes(LayerOf(last)) {
        assert WritesFor(front, dest) + [] == WritesFor(front, dest);
      }
    }
  }

  /** They write its targets, in the order of the whole batch. */
  lemma {:induction false} TargetsForWrites(writes: seq<Write>, dest: Destination)
    ensures TargetsOf(WritesFor(writes, dest)) == TargetsFor(TargetsOf(writes), dest)
  {
    if writes != [] {
      var front, last := writes[..|writes| - 1], writes[|writes| - 1];
      TargetsForWrites(front, dest);
      WritesSnoc(WritesFor(front, dest), last, Target(None, ""));
      if last.FieldWrite? {
        TargetsForKeeps(TargetsOf(front), dest, last.target);
        TargetsForSnoc(TargetsOf(front), last.target, dest);
      }
      if !dest.Takes(LayerOf(last)) {
        assert WritesFor(front, dest) + [] == WritesFor(front, dest);
        assert TargetsFor(TargetsOf(front), dest) + [] == TargetsFor(TargetsOf(front), dest);
      }
    }
  }

  /** And the same fields of each. */
  lemma {:induction false} OverridesFor(writes: seq<Write>, dest: Destination, t: Target)
    requires dest.Takes(t.layer)
    ensures OverridesOf(WritesFor(writes, dest), t) == OverridesOf(writes, t)
  {
    if writes != [] {
      var front, last := writes[..|writes| - 1], writes[|writes| - 1];
      OverridesFor(front, dest, t);
      WritesSnoc(WritesFor(front, dest), last, t);
      if !dest.Takes(LayerOf(last)) {
        assert WritesFor(front, dest) + [] == WritesFor(front, dest);
      }
    }
  }

  lemma {:induction false} UpsertsFor(config: Config, writes: seq<Write>, targets: seq<Target>, dest: Destination)
    ensures OpsFor(Upserts(config, writes, targets), dest) ==
            Upserts(config, WritesFor(writes, dest), TargetsFor(targets, dest))
  {
    if targets != [] {
      var front, last := targets[..|targets| - 1], targets[|targets| - 1];
      UpsertsFor(config, writes, front, dest);
      var upsert := AddPatch(ModelPath(last.alias), Payload(config, writes, last), last.layer);
      OpsForSnoc(Upserts(config, writes, front), upsert, dest);
      if dest.Takes(last.layer) {
        OverridesFor(writes, dest, last);
        assert (TargetsFor(front, dest) + [last])[..|TargetsFor(front, dest)|] == TargetsFor(front, dest);
      } else {
        assert OpsFor(Upserts(config, writes, front), dest) + [] == OpsFor(Upserts(config, writes, front), dest);
        assert TargetsFor(front, dest) + [] == TargetsFor(front, dest);
      }
    }
  }

  /** What a batch sends to a layer is the fold of the writes for that layer alone. */
  lemma LayersPartTheBatch(config: Config, writes: seq<Write>, dest: Destination)
    ensures OpsFor(Patches(config, writes), dest) == Patches(config, WritesFor(writes, dest))
  {
    hide Payload;
    OpsForConcat(OthersOf(writes), Upserts(config, writes, TargetsOf(writes)), dest);
    OthersFor(writes, dest);
    TargetsForWrites(writes, dest);
    UpsertsFor(config, writes, TargetsOf(writes), dest);
  }

  // ---------- one write at a time

  /** The models a layer's writes write, by whatever name the layer goes. */
  function AliasesOf(writes: seq<Write>): set<string> {
    if writes == [] then {}
    else
      var last := writes[|writes| - 1];
      AliasesOf(writes[..|writes| - 1]) + if last.FieldWrite? then {last.target.alias} else {}
  }

  /** A field write on its own: the first for a model writes its required fields too, later ones
      set their field in the entry that is there. */
  function WriteField(config: Config, doc: Json, w: Write, first: bool): Option<Json>
    requires w.FieldWrite?
  {
    var alias := w.target.alias;
    if first then EditAt(doc, ["models", alias], Adding(Obj(MinimalModelPayload(config.Model(alias), map[w.field := w.value]))))
    else EditAt(doc, ["models", alias, w.field], Adding(w.value))
  }

  /** A layer's writes, each applied to what the ones before it left. */
  function OneAtATime(config: Config, doc: Json, writes: seq<Write>): Option<Json> {
    if writes == [] then Some(doc)
    else
      var front, last := writes[..|writes| - 1], writes[|writes| - 1];
      match OneAtATime(config, doc, front)
      case None => None
      case Some(d) =>
        if last.PassedOn? then ApplyPatchOp(d, last.op)
        else WriteField(config, d, last, last.target.alias !in AliasesOf(front))
  }

  // ---------- payloads laid over the table of models

  /** The document has a table of models. */
  predicate ModelsTable(doc: Json) {
    doc.Obj? && "models" in doc.fields && doc.fields["models"].Obj?
  }

  /** The fields of a model's entry. */
  function EntryFields(doc: Json, alias: string): map<string, Json> {
    if ModelsTable(doc) && alias in doc.fields["models"].fields && doc.fields["models"].fields[alias].Obj?
    then doc.fields["models"].fields[alias].fields else map[]
  }

  type Payloads = map<string, Json>

  function WithModels(doc: Json, payloads: Payloads): Json
    requires ModelsTable(doc)
  {
    Obj(doc.fields["models" := Obj(doc.fields["models"].fields + payloads)])
  }

  /** The pointer leaves those models' entries alone. */
  predicate Avoids(p: Pointer, aliases: set<string>) {
    && p != [] && p != ["models"]
    && (p[0] == "models" ==> p[1] !in aliases)
  }

  /** An edit under another key commutes with laying entries over an object. */
  lemma EditBesides(fields: map<string, Json>, more: Payloads, p: Pointer, edit: Edit)
    requires p != [] && p[0] !in more
    ensures var before, after := EditAt(Obj(fields), p, edit), EditAt(Obj(fields + more), p, edit);
            && (before.Some? <==> after.Some?)
            && (before.Some? ==> before.value.Obj? && after.value == Obj(before.value.fields + more))
  {
    var k := p[0];
    if |p| == 1 {
      assert !edit.Removing? ==> (fields + more)[k := edit.value] == fields[k := edit.value] + more;
      assert (fields + more) - {k} == (fields - {k}) + more;
    } else if k in fields {
      var inner := EditAt(fields[k], p[1..], edit);
      if inner.Some? {
        assert (fields + more)[k := inner.value] == fields[k := inner.value] + more;
      }
    }
  }

  /** An edit that avoids the models written commutes with writing them. */
  lemma EditAvoids(doc: Json, payloads: Payloads, p: Pointer, edit: Edit)
    requires ModelsTable(doc) && Avoids(p, payloads.Keys)
    ensures var before, after := EditAt(doc, p, edit), EditAt(WithModels(doc, payloads), p, edit);
            && (before.Some? <==> after.Some?)
            && (before.Some? ==> ModelsTable(before.value) && after.value == WithModels(before.value, payloads))
  {
    var table := doc.fields["models"].fields;
    if p[0] == "models" {
      EditBesides(table, payloads, p[1..], edit);
      var inner := EditAt(Obj(table), p[1..], edit);
      if inner.Some? {
        assert doc.fields["models" := Obj(table + payloads)]["models" := Obj(inner.value.fields + payloads)]
            == doc.fields["models" := inner.value]["models" := Obj(inner.value.fields + payloads)];
      }
    } else {
      var laid := map["models" := Obj(table + payloads)];
      assert doc.fields + laid == doc.fields["models" := Obj(table + payloads)];
      EditBesides(doc.fields, laid, p, edit);
      var before := EditAt(doc, p, edit);
      if before.Some? {
        EditKeepsModels(doc.fields, p, edit);
        assert before.value.fields + laid == before.value.fields["models" := Obj(table + payloads)];
      }
    }
  }

  lemma EditKeepsModels(fields: map<string, Json>, p: Pointer, edit: Edit)
    requires p != [] && p[0] != "models" && "models" in fields && EditAt(Obj(fields), p, edit).Some?
    ensures var after := EditAt(Obj(fields), p, edit).value;
            after.Obj? && "models" in after.fields && after.fields["models"] == fields["models"]
  {}

  /** Writing one model's entry is laying it over the table. */
  lemma EntryEdit(doc: Json, alias: string, entry: Json)
    requires ModelsTable(doc)
    ensures EditAt(doc, ["models", alias], Adding(entry)) == Some(WithModels(doc, map[alias := entry]))
  {
    var table := doc.fields["models"].fields;
    assert ["models", alias][1..] == [alias];
    assert table[alias := entry] == table + map[alias := entry];
  }

  lemma LayTwice(d: Json, payloads: Payloads, alias: string, entry: Json)
    requires ModelsTable(d)
    ensures WithModels(WithModels(d, payloads), map[alias := entry]) == WithModels(d, payloads[alias := entry])
  {
    var table := d.fields["models"].fields;
    assert (table + payloads) + map[alias := entry] == table + payloads[alias := entry];
    assert d.fields["models" := Obj(table + payloads)]["models" := Obj(table + payloads[alias := entry])]
        == d.fields["models" := Obj(table + payloads[alias := entry])];
  }

  lemma ApplySnoc(doc: Json, ops: seq<PatchOp>, op: PatchOp)
    ensures ApplyPatches(doc, ops + [op]) ==
            match ApplyPatches(doc, ops) case None => None case Some(d) => ApplyPatchOp(d, op)
  {
    assert (ops + [op])[..|ops|] == ops;
  }

  lemma LayNothing(doc: Json)
    requires ModelsTable(doc)
    ensures WithModels(doc, map[]) == doc
  {
    var table := doc.fields["models"].fields;
    assert table + map[] == table;
    assert doc.fields["models" := Obj(table)] == doc.fields;
  }

  // ---------- what one write at a time comes to

  /** The fields written for a model, each with the value written last. */
  function FieldsOf(writes: seq<Write>, alias: string): map<string, Json> {
    if writes == [] then map[]
    else
      var front, last := FieldsOf(writes[..|writes| - 1], alias), writes[|writes| - 1];
      if last.FieldWrite? && last.target.alias == alias then front[last.field := last.value] else front
  }

  function Entry(config: Config, writes: seq<Write>, alias: string): Json {
    Obj(MinimalModelPayload(config.Model(alias), FieldsOf(writes, alias)))
  }

  function Entries(config: Config, writes: seq<Write>): Payloads {
    map a | a in AliasesOf(writes) :: Entry(config, writes, a)
  }

  /** The other operations leave those models alone. */
  predicate OthersAvoid(writes: seq<Write>, aliases: set<string>) {
    forall i :: 0 <= i < |writes| ==> AvoidsModels(writes[i], aliases)
  }

  predicate AvoidsModels(w: Write, aliases: set<string>) {
    w.PassedOn? && ParsePointer(w.op.path).Some? ==> Avoids(ParsePointer(w.op.path).value, aliases)
  }

  lemma {:induction false} NoFieldsUnlessWritten(writes: seq<Write>, alias: string)
    requires alias !in AliasesOf(writes)
    ensures FieldsOf(writes, alias) == map[]
  {
    if writes != [] { NoFieldsUnlessWritten(writes[..|writes| - 1], alias); }
  }

  lemma EntriesSnoc(config: Config, front: seq<Write>, last: Write)
    ensures Entries(config, front + [last]) ==
            if last.PassedOn? then Entries(config, front)
            else
              var alias := last.target.alias;
              Entries(config, front)[alias := Obj(MinimalModelPayload(config.Model(alias), FieldsOf(front, alias)[last.field := last.value]))]
    ensures AliasesOf(front + [last]) == AliasesOf(front) + if last.FieldWrite? then {last.target.alias} else {}
  {
    assert (front + [last])[..|front|] == front;
    forall a ensures FieldsOf(front + [last], a) ==
        if last.FieldWrite? && last.target.alias == a then FieldsOf(front, a)[last.field := last.value] else FieldsOf(front, a)
    {}
  }

  /** Setting a field of an entry laid over the table. */
  lemma FieldEdit(d: Json, payloads: Payloads, alias: string, field: string, value: Json)
    requires ModelsTable(d) && alias in payloads && payloads[alias].Obj?
    ensures EditAt(WithModels(d, payloads), ["models", alias, field], Adding(value)) ==
            Some(WithModels(d, payloads[alias := Obj(payloads[alias].fields[field := value])]))
  {
    var laid, entry := WithModels(d, payloads), Obj(payloads[alias].fields[field := value]);
    var table := laid.fields["models"];
    assert ["models", alias, field][1..] == [alias, field] && [alias, field][1..] == [field];
    assert EditAt(payloads[alias], [field], Adding(value)) == Some(entry);
    assert Child(table, alias) == Some(payloads[alias]);
    assert EditAt(table, [alias, field], Adding(value)) == Some(WithChild(table, alias, entry));
    EntryEdit(laid, alias, entry);
    assert ["models", alias][1..] == [alias];
    LayTwice(d, payloads, alias, entry);
  }

  /** A field write on its own extends the entries written so far by just that field. */
  lemma FieldWriteExtends(config: Config, front: seq<Write>, last: Write, d: Json)
    requires ModelsTable(d) && last.FieldWrite?
    ensures WriteField(config, WithModels(d, Entries(config, front)), last, last.target.alias !in AliasesOf(front))
            == Some(WithModels(d, Entries(config, front + [last])))
  {
    var alias, before := last.target.alias, Entries(config, front);
    var fields := FieldsOf(front, alias);
    EntriesSnoc(config, front, last);
    PayloadGrows(config.Model(alias), fields, last.field, last.value);
    if alias in AliasesOf(front) {
      assert before[alias] == Obj(MinimalModelPayload(config.Model(alias), fields));
      hide Entries;
      hide WithModels;
      hide MinimalModelPayload;
      FieldEdit(d, before, alias, last.field, last.value);
    } else {
      NoFieldsUnlessWritten(front, alias);
      hide Entries;
      hide WithModels;
      hide MinimalModelPayload;
      var entry := Obj(MinimalModelPayload(config.Model(alias), map[last.field := last.value]));
      StillATable(d, before);
      EntryEdit(WithModels(d, before), alias, entry);
      LayTwice(d, before, alias, entry);
    }
  }

  lemma StillATable(d: Json, payloads: Payloads)
    requires ModelsTable(d)
    ensures ModelsTable(WithModels(d, payloads))
  {}

  lemma PayloadGrows(model: ModelConfig, fields: map<string, Json>, field: string, value: Json)
    ensures MinimalModelPayload(model, fields[field := value]) == MinimalModelPayload(model, fields)[field := value]
    ensures fields == map[] ==> fields[field := value] == map[field := value]
  {}

  /** One write at a time comes to the other operations alone, with the models' entries laid over
      the result. */
  ghost predicate OthersThenEntries(config: Config, doc: Json, writes: seq<Write>) {
    match ApplyPatches(doc, OthersOf(writes))
    case None => OneAtATime(config, doc, writes) == None
    case Some(d) => ModelsTable(d) && OneAtATime(config, doc, writes) == Some(WithModels(d, Entries(config, writes)))
  }

  lemma OneMoreKeeps(config: Config, doc: Json, front: seq<Write>, last: Write)
    requires AvoidsModels(last, AliasesOf(front)) && OthersThenEntries(config, doc, front)
    ensures OthersThenEntries(config, doc, front + [last])
  {
    hide Entries;
    assert (front + [last])[..|front|] == front;
    var others := ApplyPatches(doc, OthersOf(front));
    if last.FieldWrite? {
      assert OthersOf(front) + [] == OthersOf(front);
      if others.Some? { FieldWriteExtends(config, front, last, others.value); }
    } else {
      ApplySnoc(doc, OthersOf(front), last.op);
      EntriesSnoc(config, front, last);
      if others.Some? { OtherOperationCommutes(config, front, last, others.value); }
    }
  }

  lemma OtherOperationCommutes(config: Config, front: seq<Write>, last: Write, d: Json)
    requires ModelsTable(d) && last.PassedOn? && AvoidsModels(last, AliasesOf(front))
    ensures match ApplyPatchOp(d, last.op)
            case None => ApplyPatchOp(WithModels(d, Entries(config, front)), last.op) == None
            case Some(after) =>
              && ModelsTable(after)
              && ApplyPatchOp(WithModels(d, Entries(config, front)), last.op) == Some(WithModels(after, Entries(config, front)))
  {
    var p := ParsePointer(last.op.path);
    if p.Some? {
      assert Entries(config, front).Keys == AliasesOf(front);
      EditAvoids(d, Entries(config, front), p.value, if last.op.AddPatch? then Adding(last.op.value) else Removing);
    }
  }

  lemma {:induction false} OneAtATimeIsOthersThenEntries(config: Config, doc: Json, writes: seq<Write>, aliases: set<string>)
    requires ModelsTable(doc) && OthersAvoid(writes, aliases) && AliasesOf(writes) <= aliases
    ensures OthersThenEntries(config, doc, writes)
  {
    if writes == [] {
      LayNothing(doc);
    } else {
      var front, last := writes[..|writes| - 1], writes[|writes| - 1];
      assert forall i :: 0 <= i < |front| ==> front[i] == writes[i];
      assert writes == front + [last];
      OneAtATimeIsOthersThenEntries(config, doc, front, aliases);
      AvoidsFewer(last, AliasesOf(front), aliases);
      OneMoreKeeps(config, doc, front, last);
    }
  }

  lemma AvoidsFewer(w: Write, some: set<string>, all: set<string>)
    requires AvoidsModels(w, all) && some <= all
    ensures AvoidsModels(w, some)
  {}

  /** The entries the batch ends up writing. */
  function PayloadsOf(config: Config, writes: seq<Write>, targets: seq<Target>): Payloads
  {
    if targets == [] then map[]
    else
      var last := targets[|targets| - 1];
      PayloadsOf(config, writes, targets[..|targets| - 1])[last.alias := Payload(config, writes, last)]
  }

  // ---------- the upserts

  lemma {:induction false} EscapedIsWellEscaped(value: string)
    ensures WellEscaped(EscapeToken(value))
  {
    if value != "" {
      var x, rest := value[0], EscapeToken(value[1..]);
      EscapedIsWellEscaped(value[1..]);
      assert value == [x] + value[1..];
      EscapeCons(x, value[1..]);
      WellEscapedCons(x, rest);
    }
  }

  lemma WellEscapedCons(x: char, rest: string)
    requires WellEscaped(rest)
    ensures WellEscaped(EscapedChar(x) + rest)
  {
    var c := EscapedChar(x);
    var all := c + rest;
    forall i | 0 <= i < |all| && all[i] == '~'
      ensures i + 1 < |all| && (all[i + 1] == '0' || all[i + 1] == '1')
    {
      if i >= |c| {
        assert rest[i - |c|] == '~';
        assert all[i + 1] == rest[i - |c| + 1];
      }
    }
  }

  /** A model's path parses to its two tokens. */
  lemma ModelPathParses(alias: string)
    ensures ParsePointer(ModelPath(alias)) == Some(["models", alias])
  {
    var token := EscapeToken(alias);
    EscapedHasNoSlash(alias);
    EscapedIsWellEscaped(alias);
    EscapeRoundTrip(alias);
    UnderModels(token);
    SplitNothing(token, '/');
    var parts := Split(ModelPath(alias), '/');
    assert parts == ["", "models", token];
    PlainTokens();
    assert forall i :: 0 <= i < |parts| ==> WellEscaped(parts[i]);
    assert ParsePointer(ModelPath(alias)).value == [UnescapeToken(parts[1]), UnescapeToken(parts[2])];
  }

  lemma PlainTokens()
    ensures WellEscaped("") && WellEscaped("models") && UnescapeToken("models") == "models"
  {
    PlainIsItself("models");
  }

  lemma PlainIsItself(s: string)
    requires '~' !in s && '/' !in s
    ensures WellEscaped(s) && UnescapeToken(s) == s
  {
    EscapeRoundTrip(s);
    NoTildesOrSlashes(s);
    EscapedIsWellEscaped(s);
  }

  lemma {:induction false} NoTildesOrSlashes(s: string)
    requires '~' !in s && '/' !in s
    ensures EscapeToken(s) == s
  {
    if s != "" {
      NoTildesOrSlashes(s[1..]);
      EscapeCons(s[0], s[1..]);
      assert s == [s[0]] + s[1..];
    }
  }

  /** Applying the upserts lays their entries over the table. */
  lemma {:induction false} UpsertsLayEntries(config: Config, writes: seq<Write>, targets: seq<Target>, d: Json)
    requires ModelsTable(d)
    ensures ApplyPatches(d, Upserts(config, writes, targets)) == Some(WithModels(d, PayloadsOf(config, writes, targets)))
  {
    if targets == [] {
      LayNothing(d);
    } else {
      var front, last := targets[..|targets| - 1], targets[|targets| - 1];
      UpsertsLayEntries(config, writes, front, d);
      var entry := Payload(config, writes, last);
      var laid := WithModels(d, PayloadsOf(config, writes, front));
      ApplySnoc(d, Upserts(config, writes, front), AddPatch(ModelPath(last.alias), entry, last.layer));
      ModelPathParses(last.alias);
      EntryEdit(laid, last.alias, entry);
      LayTwice(d, PayloadsOf(config, writes, front), last.alias, entry);
    }
  }

  lemma {:induction false} ApplyConcatenated(doc: Json, a: seq<PatchOp>, b: seq<PatchOp>)
    ensures ApplyPatches(doc, a + b) == match ApplyPatches(doc, a) case None => None case Some(d) => ApplyPatches(d, b)
  {
    if b == [] {
      assert a + b == a;
    } else {
      ApplyConcatenated(doc, a, b[..|b| - 1]);
      assert a + b == a + b[..|b| - 1] + [b[|b| - 1]];
      ApplySnoc(doc, a + b[..|b| - 1], b[|b| - 1]);
    }
  }

  // ---------- what the fold comes to, and when it is the same

  /** The last target of a model, in the order its targets are first written. */
  function LastNamed(targets: seq<Target>, alias: string): (t: Option<Target>)
    ensures t.Some? ==> t.value in targets && t.value.alias == alias
    ensures t.None? ==> forall s :: s in targets ==> s.alias != alias
  {
    if targets == [] then None
    else
      var last := targets[|targets| - 1];
      assert targets == targets[..|targets| - 1] + [last];
      if last.alias == alias then Some(last) else LastNamed(targets[..|targets| - 1], alias)
  }

  lemma {:induction false} PayloadsByLastName(config: Config, writes: seq<Write>, targets: seq<Target>, alias: string)
    ensures var p := PayloadsOf(config, writes, targets);
            && (alias in p <==> LastNamed(targets, alias).Some?)
            && (alias in p ==> p[alias] == Payload(config, writes, LastNamed(targets, alias).value))
  {
    if targets != [] { PayloadsByLastName(config, writes, targets[..|targets| - 1], alias); }
  }

  lemma {:induction false} TargetsAreAliases(writes: seq<Write>, alias: string)
    ensures alias in AliasesOf(writes) <==> LastNamed(TargetsOf(writes), alias).Some?
  {
    if writes != [] {
      var front, last := writes[..|writes| - 1], writes[|writes| - 1];
      TargetsAreAliases(front, alias);
      assert TargetsOf(writes) != TargetsOf(front) ==> TargetsOf(writes)[..|TargetsOf(front)|] == TargetsOf(front);
    }
  }

  lemma {:induction false} OverridesAreFields(writes: seq<Write>, t: Target, field: string)
    requires field in OverridesOf(writes, t)
    ensures field in FieldsOf(writes, t.alias)
  {
    var front, last := writes[..|writes| - 1], writes[|writes| - 1];
    if field in OverridesOf(front, t) { OverridesAreFields(front, t, field); }
  }

  /** The name of the layer a model was written under last of all has its fields as they were
      written last under any name: each one repeats the last value, or is written there too. */
  predicate NothingDropped(config: Config, writes: seq<Write>, alias: string) {
    var late := LastNamed(TargetsOf(writes), alias);
    late.Some? ==>
      forall f :: f in FieldsOf(writes, alias) ==>
        f in MinimalModelPayload(config.Model(alias), OverridesOf(writes, late.value))
        && MinimalModelPayload(config.Model(alias), OverridesOf(writes, late.value))[f] == FieldsOf(writes, alias)[f]
  }

  lemma SameEntryExactlyWhen(config: Config, writes: seq<Write>, alias: string)
    requires LastNamed(TargetsOf(writes), alias).Some?
    ensures Payload(config, writes, LastNamed(TargetsOf(writes), alias).value) == Entry(config, writes, alias)
            <==> NothingDropped(config, writes, alias)
  {
    var late := LastNamed(TargetsOf(writes), alias).value;
    forall f | f in OverridesOf(writes, late) ensures f in FieldsOf(writes, alias) {
      OverridesAreFields(writes, late, f);
    }
    var model := config.Model(alias);
    var kept, all := MinimalModelPayload(model, OverridesOf(writes, late)), MinimalModelPayload(model, FieldsOf(writes, alias));
    assert forall f :: f in FieldsOf(writes, alias) ==> all[f] == FieldsOf(writes, alias)[f];
    if NothingDropped(config, writes, alias) { assert kept == all; }
  }

  lemma LaidEqual(d: Json, a: Payloads, b: Payloads)
    requires ModelsTable(d) && a.Keys == b.Keys
    ensures WithModels(d, a) == WithModels(d, b) <==> a == b
  {
    if WithModels(d, a) == WithModels(d, b) {
      var table := d.fields["models"].fields;
      assert WithModels(d, a).fields["models"] == WithModels(d, b).fields["models"];
      assert forall k :: k in a ==> a[k] == (table + a)[k] == (table + b)[k] == b[k];
    }
  }

  /** What a batch does to a layer is what its writes for that layer do one at a time if and only
      if no field written under one name of the layer is dropped with it; or the other operations
      fail, and both fail with them.  Only the layer's own other operations have to leave the
      models it writes alone. */
  lemma FoldedBatchIsOneAtATimeExactlyWhen(config: Config, doc: Json, writes: seq<Write>, dest: Destination)
    requires ModelsTable(doc) && OthersAvoid(WritesFor(writes, dest), AliasesOf(WritesFor(writes, dest)))
    ensures var mine := WritesFor(writes, dest);
            ApplyPatches(doc, OpsFor(Patches(config, writes), dest)) == OneAtATime(config, doc, mine)
            <==> (ApplyPatches(doc, OthersOf(mine)).Some? ==> forall alias :: NothingDropped(config, mine, alias))
  {
    var mine := WritesFor(writes, dest);
    LayersPartTheBatch(config, writes, dest);
    OneAtATimeIsOthersThenEntries(config, doc, mine, AliasesOf(mine));
    ApplyConcatenated(doc, OthersOf(mine), Upserts(config, mine, TargetsOf(mine)));
    var others := ApplyPatches(doc, OthersOf(mine));
    if others.Some? {
      UpsertsLayEntries(config, mine, TargetsOf(mine), others.value);
      PayloadsAreEntriesExactlyWhen(config, mine);
      LaidEqual(others.value, PayloadsOf(config, mine, TargetsOf(mine)), Entries(config, mine));
    }
  }

  lemma PayloadsAreEntriesExactlyWhen(config: Config, writes: seq<Write>)
    ensures PayloadsOf(config, writes, TargetsOf(writes)).Keys == Entries(config, writes).Keys
    ensures PayloadsOf(config, writes, TargetsOf(writes)) == Entries(config, writes)
            <==> forall alias :: NothingDropped(config, writes, alias)
  {
    hide NothingDropped;
    var p, e := PayloadsOf(config, writes, TargetsOf(writes)), Entries(config, writes);
    forall alias ensures alias in p <==> alias in e
      ensures (alias in p ==> p[alias] == e[alias]) <==> NothingDropped(config, writes, alias)
    {
      PayloadsByLastName(config, writes, TargetsOf(writes), alias);
      TargetsAreAliases(writes, alias);
      if alias in p { SameEntryExactlyWhen(config, writes, alias); } else { UnwrittenDropsNothing(config, writes, alias); }
    }
  }

  lemma UnwrittenDropsNothing(config: Config, writes: seq<Write>, alias: string)
    requires LastNamed(TargetsOf(writes), alias).None?
    ensures NothingDropped(config, writes, alias)
  {}

  /** Each model is written under one name of the layer. */
  predicate OneName(writes: seq<Write>) {
    forall i, j :: 0 <= i < |writes| && 0 <= j < |writes| ==> AgreeOnName(writes[i], writes[j])
  }

  predicate AgreeOnName(a: Write, b: Write) {
    a.FieldWrite? && b.FieldWrite? && a.target.alias == b.target.alias ==> a.target == b.target
  }

  lemma {:induction false} OneNameHasAllFields(writes: seq<Write>, t: Target)
    requires forall w :: w in writes && w.FieldWrite? && w.target.alias == t.alias ==> w.target == t
    ensures FieldsOf(writes, t.alias) == OverridesOf(writes, t)
  {
    if writes != [] {
      assert writes[|writes| - 1] in writes;
      OneNameHasAllFields(writes[..|writes| - 1], t);
    }
  }

  /** Then nothing is dropped. */
  lemma OneNameDropsNothing(config: Config, writes: seq<Write>, alias: string)
    requires OneName(writes)
    ensures NothingDropped(config, writes, alias)
  {
    var late := LastNamed(TargetsOf(writes), alias);
    if late.Some? {
      OneUpsertPerTarget(writes, late.value);
      var w :| w in writes && w.FieldWrite? && w.target == late.value;
      OneNameHasAllFields(writes, late.value);
    }
  }

  /** A layer other than the default has one name, so nothing is ever dropped there. */
  lemma {:induction false} NamedLayersHaveOneName(writes: seq<Write>, dest: Destination)
    requires dest.name != dest.fallback
    ensures forall i :: 0 <= i < |WritesFor(writes, dest)| ==> LayerOf(WritesFor(writes, dest)[i]) == Some(dest.name)
    ensures OneName(WritesFor(writes, dest))
  {
    if writes != [] {
      NamedLayersHaveOneName(writes[..|writes| - 1], dest);
    }
  }

  /** So a batch over any number of layers leaves each of them as its writes one at a time would,
      as long as no model is written under two names of the default layer. */
  lemma FoldedBatchIsOneAtATime(config: Config, doc: Json, writes: seq<Write>, dest: Destination)
    requires ModelsTable(doc) && OthersAvoid(WritesFor(writes, dest), AliasesOf(WritesFor(writes, dest)))
    requires dest.name == dest.fallback ==> OneName(WritesFor(writes, dest))
    ensures ApplyPatches(doc, OpsFor(Patches(config, writes), dest)) == OneAtATime(config, doc, WritesFor(writes, dest))
  {
    if dest.name != dest.fallback { NamedLayersHaveOneName(writes, dest); }
    forall alias ensures NothingDropped(config, WritesFor(writes, dest), alias) {
      OneNameDropsNothing(config, WritesFor(writes, dest), alias);
    }
    FoldedBatchIsOneAtATimeExactlyWhen(config, doc, writes, dest);
  }

  lemma TwoWrites(early: Write, late: Write, dest: Destination)
    requires early.FieldWrite? && late.FieldWrite? && early.target.alias == late.target.alias && early.target != late.target
    requires dest.Takes(early.target.layer) && dest.Takes(late.target.layer)
    ensures var writes := [early, late];
            && WritesFor(writes, dest) == writes && OthersOf(writes) == []
            && TargetsOf(writes) == [early.target, late.target] && AliasesOf(writes) == {early.target.alias}
            && OverridesOf(writes, late.target) == map[late.field := late.value]
            && FieldsOf(writes, early.target.alias) == map[early.field := early.value][late.field := late.value]
  {
    var w := [early];
    assert [] + [early] == w && w + [late] == [early, late];
    WritesSnoc([], early, late.target);
    WritesSnoc(w, late, late.target);
    assert [late.target] != [early.target] && [] + [early.target] == [early.target];
    assert w[..0] == [] && [early, late][..1] == w;
    assert WritesFor(w, dest) == [early] && AliasesOf(w) == {early.target.alias};
    assert FieldsOf(w, early.target.alias) == map[early.field := early.value];
  }

  /** A model written under both names of the default layer loses what was written under the first:
      the batch and its writes one at a time part. */
  lemma TwoNamesForOneLayerDropAWrite(config: Config, doc: Json, early: Write, late: Write, dest: Destination)
    requires ModelsTable(doc) && early.FieldWrite? && late.FieldWrite?
    requires early.target.alias == late.target.alias && early.target != late.target
    requires dest.Takes(early.target.layer) && dest.Takes(late.target.layer)
    requires early.field != late.field && early.field !in {"name", "provider", "alias"}
    ensures var alias := early.target.alias;
            var batch := ApplyPatches(doc, OpsFor(Patches(config, [early, late]), dest));
            var single := OneAtATime(config, doc, WritesFor([early, late], dest));
            && batch.Some? && single.Some?
            && early.field !in EntryFields(batch.value, alias)
            && early.field in EntryFields(single.value, alias) && EntryFields(single.value, alias)[early.field] == early.value
            && late.field in EntryFields(batch.value, alias) && late.field in EntryFields(single.value, alias)
  {
    var writes, alias := [early, late], early.target.alias;
    TwoWrites(early, late, dest);
    assert AvoidsModels(early, {alias}) && AvoidsModels(late, {alias});
    hide ApplyPatches;
    hide OneAtATime;
    hide Entries;
    hide PayloadsOf;
    hide WithModels;
    hide WritesFor;
    TwoWritesTwice(config, doc, writes, dest);
    TwoEntries(config, early, late, dest);
    EntryOfLaid(doc, PayloadsOf(config, writes, TargetsOf(writes)), alias);
    EntryOfLaid(doc, Entries(config, writes), alias);
  }

  lemma TwoWritesTwice(config: Config, doc: Json, writes: seq<Write>, dest: Destination)
    requires ModelsTable(doc) && WritesFor(writes, dest) == writes && OthersOf(writes) == []
    requires OthersAvoid(writes, AliasesOf(writes))
    ensures ApplyPatches(doc, OpsFor(Patches(config, writes), dest)) ==
            Some(WithModels(doc, PayloadsOf(config, writes, TargetsOf(writes))))
    ensures OneAtATime(config, doc, writes) == Some(WithModels(doc, Entries(config, writes)))
  {
    LayersPartTheBatch(config, writes, dest);
    OneAtATimeIsOthersThenEntries(config, doc, writes, AliasesOf(writes));
    UpsertsLayEntries(config, writes, TargetsOf(writes), doc);
    assert [] + Upserts(config, writes, TargetsOf(writes)) == Upserts(config, writes, TargetsOf(writes));
    assert ApplyPatches(doc, []) == Some(doc);
  }

  lemma TwoEntries(config: Config, early: Write, late: Write, dest: Destination)
    requires early.FieldWrite? && late.FieldWrite? && early.target.alias == late.target.alias && early.target != late.target
    requires dest.Takes(early.target.layer) && dest.Takes(late.target.layer)
    requires early.field != late.field && early.field !in {"name", "provider", "alias"}
    ensures var alias, writes := early.target.alias, [early, late];
            var p, e := PayloadsOf(config, writes, TargetsOf(writes)), Entries(config, writes);
            && alias in p && p[alias].Obj? && early.field !in p[alias].fields && late.field in p[alias].fields
            && alias in e && e[alias].Obj? && late.field in e[alias].fields
            && early.field in e[alias].fields && e[alias].fields[early.field] == early.value
  {
    var alias, writes := early.target.alias, [early, late];
    TwoWrites(early, late, dest);
    PayloadsByLastName(config, writes, TargetsOf(writes), alias);
    assert LastNamed(TargetsOf(writes), alias) == Some(late.target) by { assert TargetsOf(writes)[1] == late.target; }
    hide OverridesOf;
    hide FieldsOf;
    hide TargetsOf;
    hide AliasesOf;
  }

  lemma EntryOfLaid(d: Json, payloads: Payloads, alias: string)
    requires ModelsTable(d) && alias in payloads && payloads[alias].Obj?
    ensures EntryFields(WithModels(d, payloads), alias) == payloads[alias].fields
  {}
}
