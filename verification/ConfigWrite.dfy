/**
 Folding configuration writes, after vibe/app_server/_config_write.py, _config_paths.py and the
 pointer escaping of vibe/core/config/patch.py.

 A model that no durable layer can rebuild is written whole: all the field writes of a batch that
 address it become one upsert of its required fields and the fields written.
 */
module ConfigWrite {
  import opened Common
  import opened Strings
  import opened JsonPatch

  // ---------- pointer tokens (RFC 6901 sections 3 and 4)

  /** `s.replace(c, t)` for a one-character `c`. */
  function ReplaceChar(s: string, c: char, t: string): string {
    if s == "" then "" else (if s[0] == c then t else [s[0]]) + ReplaceChar(s[1..], c, t)
  }

  /** `s.replace(ab, c)` for the two-character string `ab`. */
  function ReplacePair(s: string, a: char, b: char, c: char): string {
    if |s| < 2 then s
    else if s[0] == a && s[1] == b then [c] + ReplacePair(s[2..], a, b, c)
    else [s[0]] + ReplacePair(s[1..], a, b, c)
  }

  function EscapeToken(value: string): string {
    ReplaceChar(ReplaceChar(value, '~', "~0"), '/', "~1")
  }

  function UnescapeToken(value: string): string {
    ReplacePair(ReplacePair(value, '~', '1', '/'), '~', '0', '~')
  }

  lemma ReplaceCharCons(x: char, s: string, c: char, t: string)
    ensures ReplaceChar([x] + s, c, t) == (if x == c then t else [x]) + ReplaceChar(s, c, t)
  {
    assert ([x] + s)[1..] == s;
  }

  lemma ReplacePairHit(s: string, a: char, b: char, c: char)
    ensures ReplacePair([a, b] + s, a, b, c) == [c] + ReplacePair(s, a, b, c)
  {
    assert ([a, b] + s)[2..] == s;
  }

  lemma ReplacePairMiss(x: char, s: string, a: char, b: char, c: char)
    requires x != a || s == "" || s[0] != b
    ensures ReplacePair([x] + s, a, b, c) == [x] + ReplacePair(s, a, b, c)
  {
    assert ([x] + s)[1..] == s;
    if s == "" { assert [x] + s == [x]; }
  }

  /** How escaping treats one character. */
  function EscapedChar(x: char): string {
    if x == '~' then "~0" else if x == '/' then "~1" else [x]
  }

  lemma EscapeCons(x: char, s: string)
    ensures EscapeToken([x] + s) == EscapedChar(x) + EscapeToken(s)
  {
    var rest := ReplaceChar(s, '~', "~0");
    ReplaceCharCons(x, s, '~', "~0");
    if x == '~' {
      assert "~0" + rest == ['~'] + (['0'] + rest);
      ReplaceCharCons('~', ['0'] + rest, '/', "~1");
      ReplaceCharCons('0', rest, '/', "~1");
      assert ['~'] + (['0'] + EscapeToken(s)) == "~0" + EscapeToken(s);
    } else {
      ReplaceCharCons(x, rest, '/', "~1");
    }
  }

  /** Undoing the second replacement of an escaped token gives the first one's result. */
  lemma SlashComesBack(x: char, e: string)
    ensures ReplacePair(EscapedChar(x) + e, '~', '1', '/') ==
            (if x == '~' then "~0" else [x]) + ReplacePair(e, '~', '1', '/')
  {
    if x == '~' {
      ConcatAssociates(['~'], ['0'], e);
      ReplacePairMiss('~', ['0'] + e, '~', '1', '/');
      ReplacePairMiss('0', e, '~', '1', '/');
      ConcatAssociates(['~'], ['0'], ReplacePair(e, '~', '1', '/'));
      assert ['~'] + ['0'] == "~0";
    } else if x == '/' {
      assert ['~', '1'] == "~1";
      ReplacePairHit(e, '~', '1', '/');
    } else {
      ReplacePairMiss(x, e, '~', '1', '/');
    }
  }

  lemma {:induction false} SlashesComeBack(s: string)
    ensures ReplacePair(EscapeToken(s), '~', '1', '/') == ReplaceChar(s, '~', "~0")
  {
    if s != "" {
      var x, rest := s[0], s[1..];
      assert s == [x] + rest;
      SlashesComeBack(rest);
      EscapeCons(x, rest);
      ReplaceCharCons(x, rest, '~', "~0");
      hide ReplacePair;
      SlashComesBack(x, EscapeToken(rest));
    }
  }

  lemma {:induction false} TildesComeBack(s: string)
    ensures ReplacePair(ReplaceChar(s, '~', "~0"), '~', '0', '~') == s
  {
    if s != "" {
      var x, rest := s[0], s[1..];
      var e := ReplaceChar(rest, '~', "~0");
      assert s == [x] + rest;
      TildesComeBack(rest);
      ReplaceCharCons(x, rest, '~', "~0");
      if x == '~' {
        assert "~0" + e == ['~', '0'] + e;
        ReplacePairHit(e, '~', '0', '~');
      } else {
        ReplacePairMiss(x, e, '~', '0', '~');
      }
    }
  }

  /** A token written into a pointer reads back as the value it names. */
  lemma EscapeRoundTrip(value: string)
    ensures UnescapeToken(EscapeToken(value)) == value
  {
    SlashesComeBack(value);
    TildesComeBack(value);
  }

  lemma {:induction false} EscapedHasNoSlash(value: string)
    ensures '/' !in EscapeToken(value)
  {
    if value != "" {
      EscapedHasNoSlash(value[1..]);
      EscapeCons(value[0], value[1..]);
      assert value == [value[0]] + value[1..];
    }
  }

  // ---------- configuration and writes

  datatype ModelConfig = ModelConfig(name: Json, provider: Json, alias: Json)

  /** The models a configuration offers, and the field names a model has. */
  datatype Config = Config(models: map<string, ModelConfig>, modelFields: set<string>, activeAlias: string, defaultAlias: string) {
    /** The model of an alias; a write that folds always addresses one that is offered. */
    function Model(alias: string): ModelConfig {
      if alias in models then models[alias] else ModelConfig(Null, Null, Null)
    }
  }

  type Layer = Option<string>

  datatype WriteOp = Set(path: string, value: Json, layer: Layer) | Remove(path: string, layer: Layer)

  datatype PatchOp = AddPatch(path: string, value: Json, layer: Layer) | RemovePatch(path: string, layer: Layer)

  const ACTIVE_MODEL_PATH := "/active_model"

  function ModelPath(alias: string): string { "/models/" + EscapeToken(alias) }

  function ModelThinkingPath(alias: string): string { ModelPath(alias) + "/thinking" }

  /** The alias and field a write addresses, when it addresses one. */
  function ModelFieldWrite(path: string, config: Config): Option<(string, string)> {
    var parts := Split(path, '/');
    if |parts| != 4 || parts[0] != "" || parts[1] != "models" then None
    else
      var alias, field := UnescapeToken(parts[2]), parts[3];
      if alias !in config.models || field !in config.modelFields then None else Some((alias, field))
  }

  /** The path made for a model's field reads back as that alias and field, whatever characters
      the alias holds. */
  lemma FieldPathRoundTrip(config: Config, alias: string, field: string)
    requires alias in config.models && field in config.modelFields && '/' !in field
    ensures ModelFieldWrite(ModelPath(alias) + "/" + field, config) == Some((alias, field))
  {
    var token := EscapeToken(alias);
    var path := ModelPath(alias) + "/" + field;
    EscapedHasNoSlash(alias);
    EscapeRoundTrip(alias);
    assert path == "/models/" + (token + ['/'] + field);
    UnderModels(token + ['/'] + field);
    SplitConcat(token, field, '/');
    SplitNothing(token, '/');
    SplitNothing(field, '/');
  }

  /** A pointer under `/models` splits into an empty part, `models`, and the parts of the rest. */
  lemma UnderModels(rest: string)
    ensures Split("/models/" + rest, '/') == ["", "models"] + Split(rest, '/')
  {
    NoSlashInModels();
    assert "/models/" + rest == "" + ['/'] + ("models" + ['/'] + rest);
    SplitConcat("", "models" + ['/'] + rest, '/');
    SplitConcat("models", rest, '/');
    SplitNothing("", '/');
    SplitNothing("models", '/');
    ConcatAssociates([""], ["models"], Split(rest, '/'));
  }

  lemma NoSlashInModels()
    ensures '/' !in "models" && '/' !in "thinking"
  {
    assert "models" == ['m', 'o', 'd', 'e', 'l', 's'];
    assert "thinking" == ['t', 'h', 'i', 'n', 'k', 'i', 'n', 'g'];
  }

  function ModelAfterWrite(config: Config, alias: Option<string>): string {
    if alias.Some? && alias.value != "" then alias.value
    else if alias.Some? then config.defaultAlias
    else config.activeAlias
  }

  datatype ConfigError = UnknownModel(alias: string)

  /** The model that is active once a pick is written: the one picked, the default one for an empty
      pick, and the present one when nothing is picked. */
  predicate BecomesActive(config: Config, pick: Option<string>, t: string) {
    match pick
    case None => t == config.activeAlias
    case Some(alias) => if |alias| == 0 then t == config.defaultAlias else t == alias
  }

  /** The write sets a model's thinking, as paths are read back. */
  predicate SetsThinking(config: Config, op: WriteOp, t: string, value: Json) {
    op.Set? && op.value == value && op.layer == None && ModelFieldWrite(op.path, config) == Some((t, "thinking"))
  }

  method ModelConfigWriteOps(config: Config, alias: Option<string>, effort: Option<Json>)
    returns (r: Result<seq<WriteOp>, ConfigError>)
    ensures r.Err? <==> alias.Some? && alias.value != "" && alias.value !in config.models
    ensures r.Ok? ==>
              r.value == (if alias.Some? then [Set(ACTIVE_MODEL_PATH, Str(alias.value), None)] else [])
                       + (if effort.Some? then [Set(ModelThinkingPath(ModelAfterWrite(config, alias)), effort.value, None)] else [])
    ensures r.Ok? ==> |r.value| == (if alias.Some? then 1 else 0) + (if effort.Some? then 1 else 0)
    ensures r.Ok? && alias.Some? ==> r.value[0] == Set("/active_model", Str(alias.value), None)
    ensures r.Ok? && effort.Some? && "thinking" in config.modelFields ==>
              forall t :: t in config.models && BecomesActive(config, alias, t) ==>
                SetsThinking(config, r.value[|r.value| - 1], t, effort.value)
  {
    if alias.Some? && alias.value != "" && alias.value !in config.models {
      return Err(UnknownModel(alias.value));
    }
    var ops: seq<WriteOp> := [];
    if alias.Some? {
      ops := ops + [Set(ACTIVE_MODEL_PATH, Str(alias.value), None)];
    }
    if effort.Some? {
      var target := ModelAfterWrite(config, alias);
      ops := ops + [Set(ModelThinkingPath(target), effort.value, None)];
      if target in config.models && "thinking" in config.modelFields { ThinkingPathReads(config, target); }
    }
    r := Ok(ops);
  }

  lemma ThinkingPathReads(config: Config, alias: string)
    requires alias in config.models && "thinking" in config.modelFields
    ensures ModelFieldWrite(ModelThinkingPath(alias), config) == Some((alias, "thinking"))
  {
    NoSlashInModels();
    FieldPathRoundTrip(config, alias, "thinking");
    assert ModelThinkingPath(alias) == ModelPath(alias) + "/" + "thinking";
  }

  /** A pick's thinking is stored under the model the pick leaves active. */
  lemma ThinkingFollowsThePick(config: Config, pick: Option<string>, t: string)
    requires BecomesActive(config, pick, t) && t in config.models && "thinking" in config.modelFields
    ensures ModelFieldWrite(ModelThinkingPath(ModelAfterWrite(config, pick)), config) == Some((t, "thinking"))
  {
    ThinkingPathReads(config, t);
  }

  // ---------- folding a batch

  /** Where an upsert goes: the layer and the model. */
  datatype Target = Target(layer: Layer, alias: string)

  /** What a write is to the fold: a field of a model to materialise, or something to pass on. */
  datatype Write = FieldWrite(target: Target, field: string, value: Json) | PassedOn(op: PatchOp)

  function Classify(config: Config, durable: set<string>, op: WriteOp): Write {
    match op
    case Remove(path, layer) => PassedOn(RemovePatch(path, layer))
    case Set(path, value, layer) =>
      match ModelFieldWrite(path, config)
      case None => PassedOn(AddPatch(path, value, layer))
      case Some((alias, field)) =>
        if alias in durable then PassedOn(AddPatch(path, value, layer)) else FieldWrite(Target(layer, alias), field, value)
  }

  function ClassifyAll(config: Config, durable: set<string>, ops: seq<WriteOp>): (r: seq<Write>)
    ensures |r| == |ops|
    ensures forall i :: 0 <= i < |r| ==> r[i] == Classify(config, durable, ops[i])
  {
    seq(|ops|, i requires 0 <= i < |ops| => Classify(config, durable, ops[i]))
  }

  /** The operations passed on, in order. */
  function OthersOf(writes: seq<Write>): seq<PatchOp> {
    if writes == [] then []
    else
      var last := writes[|writes| - 1];
      OthersOf(writes[..|writes| - 1]) + if last.PassedOn? then [last.op] else []
  }

  /** The targets written, in the order they first are. */
  function TargetsOf(writes: seq<Write>): seq<Target> {
    if writes == [] then []
    else
      var front, last := TargetsOf(writes[..|writes| - 1]), writes[|writes| - 1];
      if last.PassedOn? || last.target in front then front else front + [last.target]
  }

  /** The fields written for a target, each with the value written last. */
  function OverridesOf(writes: seq<Write>, t: Target): map<string, Json> {
    if writes == [] then map[]
    else
      var front, last := OverridesOf(writes[..|writes| - 1], t), writes[|writes| - 1];
      if last.FieldWrite? && last.target == t then front[last.field := last.value] else front
  }

  /** `_minimal_model_payload`. */
  function MinimalModelPayload(model: ModelConfig, overrides: map<string, Json>): map<string, Json> {
    map["name" := model.name, "provider" := model.provider, "alias" := model.alias] + overrides
  }

  function Payload(config: Config, writes: seq<Write>, t: Target): Json {
    Obj(MinimalModelPayload(config.Model(t.alias), OverridesOf(writes, t)))
  }

  function Upserts(config: Config, writes: seq<Write>, targets: seq<Target>): seq<PatchOp> {
    if targets == [] then []
    else
      var last := targets[|targets| - 1];
      Upserts(config, writes, targets[..|targets| - 1]) + [AddPatch(ModelPath(last.alias), Payload(config, writes, last), last.layer)]
  }

  /** The whole batch: other operations in order, then one upsert for each target. */
  function Patches(config: Config, writes: seq<Write>): seq<PatchOp> {
    OthersOf(writes) + Upserts(config, writes, TargetsOf(writes))
  }

  /** What the loop over the batch has collected: each target's fields so far. */
  ghost predicate Collected(writes: seq<Write>, order: seq<Target>, pending: map<Target, map<string, Json>>) {
    && order == TargetsOf(writes)
    && (forall t :: t in pending <==> t in order)
    && forall t :: OverridesOf(writes, t) == if t in pending then pending[t] else map[]
  }

  lemma WritesSnoc(writes: seq<Write>, w: Write, t: Target)
    ensures OthersOf(writes + [w]) == OthersOf(writes) + if w.PassedOn? then [w.op] else []
    ensures TargetsOf(writes + [w]) ==
            if w.PassedOn? || w.target in TargetsOf(writes) then TargetsOf(writes) else TargetsOf(writes) + [w.target]
    ensures OverridesOf(writes + [w], t) ==
            if w.FieldWrite? && w.target == t then OverridesOf(writes, t)[w.field := w.value] else OverridesOf(writes, t)
  {
    assert (writes + [w])[..|writes|] == writes;
  }

  lemma CollectNext(writes: seq<Write>, w: Write, order: seq<Target>, pending: map<Target, map<string, Json>>)
    requires Collected(writes, order, pending)
    ensures OthersOf(writes + [w]) == OthersOf(writes) + if w.PassedOn? then [w.op] else []
    ensures if w.PassedOn? then Collected(writes + [w], order, pending)
            else
              var known := w.target in pending;
              Collected(writes + [w], if known then order else order + [w.target],
                        pending[w.target := (if known then pending[w.target] else map[])[w.field := w.value]])
  {
    WritesSnoc(writes, w, Target(None, ""));
    forall t ensures OverridesOf(writes + [w], t) ==
        if w.FieldWrite? && w.target == t then OverridesOf(writes, t)[w.field := w.value] else OverridesOf(writes, t)
    {
      WritesSnoc(writes, w, t);
    }
  }

  /** One round of the loop over the batch. */
  method CollectWrite(config: Config, op: WriteOp, durable: set<string>, operations: seq<PatchOp>, order: seq<Target>,
                      pending: map<Target, map<string, Json>>, ghost writes: seq<Write>)
    returns (operations': seq<PatchOp>, order': seq<Target>, pending': map<Target, map<string, Json>>)
    requires operations == OthersOf(writes) && Collected(writes, order, pending)
    ensures operations' == OthersOf(writes + [Classify(config, durable, op)])
    ensures Collected(writes + [Classify(config, durable, op)], order', pending')
  {
    CollectNext(writes, Classify(config, durable, op), order, pending);
    operations', order', pending' := operations, order, pending;
    if op.Remove? {
      operations' := operations + [RemovePatch(op.path, op.layer)];
      return;
    }
    var write := ModelFieldWrite(op.path, config);
    if write.Some? && write.value.0 !in durable {
      var t := Target(op.layer, write.value.0);
      if t !in pending {
        pending', order' := pending[t := map[]], order + [t];
      }
      pending' := pending'[t := pending'[t][write.value.1 := op.value]];
      return;
    }
    operations' := operations + [AddPatch(op.path, op.value, op.layer)];
  }

  method CollectWrites(config: Config, ops: seq<WriteOp>, durable: set<string>)
    returns (operations: seq<PatchOp>, order: seq<Target>, pending: map<Target, map<string, Json>>)
    ensures operations == OthersOf(ClassifyAll(config, durable, ops))
    ensures Collected(ClassifyAll(config, durable, ops), order, pending)
  {
    operations, order, pending := [], [], map[];
    ghost var writes := ClassifyAll(config, durable, ops);
    for k := 0 to |ops|
      invariant operations == OthersOf(writes[..k])
      invariant Collected(writes[..k], order, pending)
    {
      assert writes[..k + 1] == writes[..k] + [Classify(config, durable, ops[k])];
      operations, order, pending := CollectWrite(config, ops[k], durable, operations, order, pending, writes[..k]);
    }
    assert writes[..|ops|] == writes;
  }

  /** The loop over the collected targets. */
  method AppendUpserts(config: Config, others: seq<PatchOp>, order: seq<Target>, pending: map<Target, map<string, Json>>,
                       ghost writes: seq<Write>)
    returns (operations: seq<PatchOp>)
    requires forall t :: t in order ==> t in pending && pending[t] == OverridesOf(writes, t)
    ensures operations == others + Upserts(config, writes, order)
  {
    operations := others;
    for k := 0 to |order|
      invariant operations == others + Upserts(config, writes, order[..k])
    {
      var t := order[k];
      assert order[..k + 1][..k] == order[..k];
      operations := operations + [AddPatch(ModelPath(t.alias), Obj(MinimalModelPayload(config.Model(t.alias), pending[t])), t.layer)];
    }
    assert order[..|order|] == order;
  }

  method ConfigWriteOpsToPatches(config: Config, ops: seq<WriteOp>, durable: set<string>) returns (operations: seq<PatchOp>)
    ensures operations == Patches(config, ClassifyAll(config, durable, ops))
  {
    var others, order, pending := CollectWrites(config, ops, durable);
    ghost var writes := ClassifyAll(config, durable, ops);
    assert forall t :: t in order ==> OverridesOf(writes, t) == pending[t];
    operations := AppendUpserts(config, others, order, pending, writes);
  }

  // ---------- what the fold keeps

  /** One upsert for each target written, and no others. */
  lemma {:induction false} OneUpsertPerTarget(writes: seq<Write>, t: Target)
    ensures forall i, j :: 0 <= i < j < |TargetsOf(writes)| ==> TargetsOf(writes)[i] != TargetsOf(writes)[j]
    ensures t in TargetsOf(writes) <==> exists w :: w in writes && w.FieldWrite? && w.target == t
  {
    if writes != [] {
      var front, last := writes[..|writes| - 1], writes[|writes| - 1];
      OneUpsertPerTarget(front, t);
      assert writes == front + [last];
    }
  }

  /** A field of an upsert holds what the last write of that field said. */
  lemma {:induction false} LastWriteWins(writes: seq<Write>, t: Target, field: string, value: Json, i: nat)
    requires i < |writes| && writes[i] == FieldWrite(t, field, value)
    requires forall j :: i < j < |writes| && writes[j].FieldWrite? ==> writes[j].target != t || writes[j].field != field
    ensures field in OverridesOf(writes, t) && OverridesOf(writes, t)[field] == value
  {
    if i < |writes| - 1 {
      LastWriteWins(writes[..|writes| - 1], t, field, value, i);
    }
  }

  /** A field that is not written is not overridden. */
  lemma {:induction false} UnwrittenFieldsStay(writes: seq<Write>, t: Target, field: string)
    requires forall w :: w in writes && w.FieldWrite? ==> w.target != t || w.field != field
    ensures field !in OverridesOf(writes, t)
  {
    if writes != [] {
      assert writes[|writes| - 1] in writes;
      UnwrittenFieldsStay(writes[..|writes| - 1], t, field);
    }
  }

  /** Everything else is passed on, in order. */
  lemma {:induction false} OthersAreKept(a: seq<Write>, w: Write, b: seq<Write>)
    ensures OthersOf(a + [w] + b) == OthersOf(a) + (if w.PassedOn? then [w.op] else []) + OthersOf(b)
  {
    if b == [] {
      assert a + [w] + b == a + [w] && (a + [w])[..|a|] == a;
    } else {
      var front, last := b[..|b| - 1], b[|b| - 1];
      OthersAreKept(a, w, front);
      assert (a + [w] + b)[..|a| + |b|] == a + [w] + front;
    }
  }

  // ---------- which writes fold, and what an upsert holds

  /** A write of a model's field, at the path made for it, is folded unless a durable layer has the
      model, and then passed on as it is. */
  lemma FieldWritesFold(config: Config, durable: set<string>, alias: string, field: string, value: Json, layer: Layer)
    requires alias in config.models && field in config.modelFields && '/' !in field
    ensures var path := ModelPath(alias) + "/" + field;
            Classify(config, durable, Set(path, value, layer)) ==
            if alias in durable then PassedOn(AddPatch(path, value, layer)) else FieldWrite(Target(layer, alias), field, value)
  {
    FieldPathRoundTrip(config, alias, field);
  }

  /** What folds is a write of an offered model's field; everything else goes on with its path, its value
      and its layer. */
  lemma OnlyFieldWritesFold(config: Config, durable: set<string>, op: WriteOp)
    ensures var w := Classify(config, durable, op);
            && (w.FieldWrite? ==>
                  && op.Set? && w.value == op.value && w.target.layer == op.layer
                  && w.target.alias in config.models && w.target.alias !in durable && w.field in config.modelFields)
            && (w.PassedOn? ==>
                  && (op.Set? <==> w.op.AddPatch?) && w.op.path == op.path && w.op.layer == op.layer
                  && (op.Set? ==> w.op.value == op.value))
  {}

  /** The fields of an upsert: what was written, and of the three a stored model needs, where they were
      not written, the offered model's own. */
  predicate HoldsModel(config: Config, writes: seq<Write>, t: Target, fields: map<string, Json>) {
    && fields.Keys == {"name", "provider", "alias"} + OverridesOf(writes, t).Keys
    && (forall f :: f in OverridesOf(writes, t) ==> fields[f] == OverridesOf(writes, t)[f])
    && (t.alias in config.models ==>
          var model := config.models[t.alias];
          && ("name" !in OverridesOf(writes, t) ==> fields["name"] == model.name)
          && ("provider" !in OverridesOf(writes, t) ==> fields["provider"] == model.provider)
          && ("alias" !in OverridesOf(writes, t) ==> fields["alias"] == model.alias))
  }

  lemma PayloadHoldsModel(config: Config, writes: seq<Write>, t: Target)
    ensures Payload(config, writes, t).Obj? && HoldsModel(config, writes, t, Payload(config, writes, t).fields)
  {
    assert "name" != "provider" && "provider" != "alias" && "name" != "alias";
  }

  /** The upserts stand behind everything passed on, one for each target in the order first written, each
      for its model and its layer. */
  lemma {:induction false} UpsertsHoldModels(config: Config, writes: seq<Write>, targets: seq<Target>)
    ensures |Upserts(config, writes, targets)| == |targets|
    ensures forall k :: 0 <= k < |targets| ==>
              var op := Upserts(config, writes, targets)[k];
              && op.AddPatch? && op.path == "/models/" + EscapeToken(targets[k].alias) && op.layer == targets[k].layer
              && op.value.Obj? && HoldsModel(config, writes, targets[k], op.value.fields)
  {
    hide HoldsModel;
    if targets != [] {
      var front, last := targets[..|targets| - 1], targets[|targets| - 1];
      UpsertsHoldModels(config, writes, front);
      PayloadHoldsModel(config, writes, last);
      hide Payload;
    }
  }
}
