/**
The durable page checkpoint inside a connector's JSON configuration: how it is built,
and when it is believed again.

Date text, `str()` and the SHA-256 fingerprint are parameters (`Codec`); the results
assume of them only what `Faithful` says.
 */
module IngestionCheckpoint {
  import opened Wrappers

  /** A JSON value as Python holds it; a float is the quotient it stands for. */
  datatype Value = Null | Bool(b: bool) | Int(i: int) | Float(num: int, den: nat) | Str(s: string)
                 | List(items: seq<Value>) | Dict(entries: map<string, Value>)

  type Config = map<string, Value>

  /** An instant in microseconds; `offset` is absent for a naive datetime. */
  datatype Timestamp = Timestamp(micros: int, offset: Option<int>)

  datatype Codec = Codec(iso: Timestamp -> string, parseIso: string -> Option<Timestamp>,
                         str: Value -> string, hash: (string, Config) -> string)

  /** Printed dates parse back, `str` of a string is the string, and different
      (source, configuration) pairs have different fingerprints. */
  ghost predicate Faithful(codec: Codec) {
    && (forall t :: codec.parseIso(codec.iso(t)) == Some(t))
    && (forall s :: codec.str(Str(s)) == s)
    && (forall s, c, s', c' :: codec.hash(s, c) == codec.hash(s', c') ==> s == s' && c == c')
  }

  const CHECKPOINT_KEY := "_ingestion_checkpoint"
  const MICROS_PER_SECOND := 1_000_000
  const CLOCK_SKEW_SECONDS := 300

  predicate WorkerOwned(key: string) {
    |key| > 0 && key[0] == '_'
  }

  /** The operator's part of a configuration. */
  function Operator(config: Config): Config {
    map k | k in config && !WorkerOwned(k) :: config[k]
  }

  /** Two configurations agree on every key that does not begin with an underscore. */
  ghost predicate SameForOperator(x: Config, y: Config) {
    forall k: string | k == "" || k[0] != '_' :: (k in x <==> k in y) && (k in x ==> x[k] == y[k])
  }

  lemma OperatorIff(x: Config, y: Config)
    ensures Operator(x) == Operator(y) <==> SameForOperator(x, y)
  {
    if Operator(x) == Operator(y) {
      forall k: string | k == "" || k[0] != '_' ensures (k in x <==> k in y) && (k in x ==> x[k] == y[k]) {
        assert k in Operator(x) <==> k in Operator(y);
        assert k in x ==> Operator(x)[k] == Operator(y)[k];
      }
    }
  }

  function Fingerprint(codec: Codec, source: string, config: Config): string {
    codec.hash(source, Operator(config))
  }

  function OptionalStr(s: Option<string>): Value {
    match s
    case None => Null
    case Some(x) => Str(x)
  }

  function Build(codec: Codec, source: string, config: Config, full: bool, since: Option<Timestamp>,
                 cursor: string, token: Option<string>, now: Timestamp): Value
  {
    Dict(map[
      "version" := Int(1),
      "source" := Str(source),
      "force_full_sync" := Bool(full),
      "since" := (match since case None => Null case Some(t) => Str(codec.iso(t))),
      "cursor" := Str(cursor),
      "resume_token" := OptionalStr(token),
      "config_fingerprint" := Str(Fingerprint(codec, source, config)),
      "updated_at" := Str(codec.iso(now))
    ])
  }

  function Get(entries: map<string, Value>, key: string): Value {
    if key in entries then entries[key] else Null
  }

  /** Python's `value == 1`. */
  predicate EqualsOne(v: Value) {
    v == Int(1) || v == Bool(true) || (v.Float? && v.den > 0 && v.num == v.den)
  }

  datatype Loaded = Loaded(since: Option<Timestamp>, cursor: string, token: Option<string>)

  /** The checkpoint in `config`, or `None` to start at the first page. `now` is aware. */
  function Load(codec: Codec, source: string, config: Config, full: bool, now: Timestamp, ttlSeconds: int)
    : Option<Loaded> {
    if CHECKPOINT_KEY !in config || !config[CHECKPOINT_KEY].Dict? then None
    else
      var raw := config[CHECKPOINT_KEY].entries;
      if "updated_at" !in raw then None
      else
        match codec.parseIso(codec.str(raw["updated_at"]))
        case None => None
        case Some(updated) =>
          var age := now.micros - updated.micros;
          if updated.offset.None? then None
          else if age < -CLOCK_SKEW_SECONDS * MICROS_PER_SECOND || age > ttlSeconds * MICROS_PER_SECOND then None
          else if !EqualsOne(Get(raw, "version")) then None
          else if Get(raw, "source") != Str(source) || Get(raw, "force_full_sync") != Bool(full) then None
          else if Get(raw, "config_fingerprint") != Str(Fingerprint(codec, source, config)) then None
          else if !Get(raw, "cursor").Str? || Get(raw, "cursor").s == "" then None
          else LoadRest(codec, raw, Get(raw, "cursor").s)
  }

  function LoadRest(codec: Codec, raw: map<string, Value>, cursor: string): Option<Loaded> {
    var since := Get(raw, "since");
    var token := Get(raw, "resume_token");
    if since.Str? && (codec.parseIso(since.s).None? || codec.parseIso(since.s).value.offset.None?) then None
    else if !token.Null? && !token.Str? then None
    else Some(Loaded(if since.Str? then codec.parseIso(since.s) else None, cursor,
                     if token.Str? then Some(token.s) else None))
  }

  // ---------------------------------------------------------------- any stored value

  /** The stored value agrees with a checkpoint as it would be written, up to how a date is
      printed, what Python takes to equal 1, and a `since` that is not text. */
  predicate Agrees(codec: Codec, raw: map<string, Value>, l: Loaded, written: map<string, Value>) {
    && (match Get(raw, "version")
        case Int(i) => i == 1
        case Bool(b) => b
        case Float(num, den) => den > 0 && num == den
        case _ => false)
    && Get(raw, "source") == Get(written, "source")
    && Get(raw, "force_full_sync") == Get(written, "force_full_sync")
    && Get(raw, "config_fingerprint") == Get(written, "config_fingerprint")
    && Get(raw, "cursor") == Get(written, "cursor")
    && Get(raw, "resume_token") == Get(written, "resume_token")
    && match l.since
       case None => !Get(raw, "since").Str?
       case Some(t) => Get(raw, "since").Str? && codec.parseIso(Get(raw, "since").s) == Some(t)
  }

  /** Whatever is stored under the key: it is believed exactly if it is an object with an
      aware, recent date that agrees with the checkpoint which this connector's worker would
      have written then, in this mode and under this configuration. */
  lemma LoadIff(codec: Codec, source: string, config: Config, full: bool, now: Timestamp, ttlSeconds: int, l: Loaded)
    requires "_ingestion_checkpoint" in config && config["_ingestion_checkpoint"].Dict?
    ensures var raw := config["_ingestion_checkpoint"].entries;
            var date := if "updated_at" in raw then codec.parseIso(codec.str(raw["updated_at"])) else None;
            Load(codec, source, config, full, now, ttlSeconds) == Some(l) <==>
              && date.Some? && date.value.offset.Some?
              && -300_000_000 <= now.micros - date.value.micros <= ttlSeconds * 1_000_000
              && l.cursor != "" && (l.since.Some? ==> l.since.value.offset.Some?)
              && var written := Build(codec, source, config, full, l.since, l.cursor, l.token, date.value);
                 Agrees(codec, raw, l, written.entries)
  {
    hide Fingerprint, Build, Get;
    if "updated_at" in config["_ingestion_checkpoint"].entries {
      var date := codec.parseIso(codec.str(config["_ingestion_checkpoint"].entries["updated_at"]));
      if date.Some? {
        BuiltFields(codec, source, config, full, l.since, l.cursor, l.token, date.value);
      }
    }
  }

  /** What a written checkpoint holds, field by field. */
  lemma BuiltFields(codec: Codec, source: string, config: Config, full: bool, since: Option<Timestamp>,
                    cursor: string, token: Option<string>, now: Timestamp)
    ensures var w := Build(codec, source, config, full, since, cursor, token, now);
            && w.Dict? && "updated_at" in w.entries && w.entries["updated_at"] == Str(codec.iso(now))
            && Get(w.entries, "version") == Int(1) && Get(w.entries, "source") == Str(source)
            && Get(w.entries, "force_full_sync") == Bool(full)
            && Get(w.entries, "since") == (match since case None => Null case Some(t) => Str(codec.iso(t)))
            && Get(w.entries, "cursor") == Str(cursor) && Get(w.entries, "resume_token") == OptionalStr(token)
            && Get(w.entries, "config_fingerprint") == Str(Fingerprint(codec, source, config))
  {
    hide Fingerprint;
  }

  /** Anything but an object under the key, and an absent key, is no checkpoint. */
  lemma LoadNeedsObject(codec: Codec, source: string, config: Config, full: bool, now: Timestamp, ttlSeconds: int)
    requires "_ingestion_checkpoint" in config ==> !config["_ingestion_checkpoint"].Dict?
    ensures Load(codec, source, config, full, now, ttlSeconds) == None
  {
  }

  // ---------------------------------------------------------------- what was written

  /** Round trip, exactly: a configuration that carries a checkpoint built under
      (source0, config0, full0) at `built` yields precisely what was put in when source,
      mode and operator keys are the same, the age is within the limits, the cursor is
      not empty and the times are aware; in every other case it yields nothing. All other
      worker-owned keys are irrelevant. */
  lemma LoadOfBuilt(codec: Codec, source0: string, config0: Config, full0: bool, since: Option<Timestamp>,
                    cursor: string,
                    token: Option<string>, built: Timestamp,
                    source: string, config: Config, full: bool, now: Timestamp, ttlSeconds: int)
    requires Faithful(codec)
    requires "_ingestion_checkpoint" in config
    requires config["_ingestion_checkpoint"] == Build(codec, source0, config0, full0, since, cursor, token, built)
    ensures var age := now.micros - built.micros;
            Load(codec, source, config, full, now, ttlSeconds) ==
            if && source == source0 && full == full0 && SameForOperator(config, config0)
               && -300_000_000 <= age <= ttlSeconds * 1_000_000
               && cursor != "" && built.offset.Some? && (since.Some? ==> since.value.offset.Some?)
            then Some(Loaded(since, cursor, token)) else None
  {
    hide Load, Build, Get, Fingerprint, Operator, SameForOperator;
    BuiltFields(codec, source0, config0, full0, since, cursor, token, built);
    SamePrint(codec, source, config, source0, config0);
    assert codec.str(Str(codec.iso(built))) == codec.iso(built) && codec.parseIso(codec.iso(built)) == Some(built);
    var want := Loaded(since, cursor, token);
    BuiltFields(codec, source, config, full, since, cursor, token, built);
    LoadIff(codec, source, config, full, now, ttlSeconds, want);
    if Load(codec, source, config, full, now, ttlSeconds).Some? {
      var l := Load(codec, source, config, full, now, ttlSeconds).value;
      BuiltFields(codec, source, config, full, l.since, l.cursor, l.token, built);
      LoadIff(codec, source, config, full, now, ttlSeconds, l);
    }
  }

  lemma SamePrint(codec: Codec, source: string, config: Config, source0: string, config0: Config)
    requires Faithful(codec)
    ensures Fingerprint(codec, source, config) == Fingerprint(codec, source0, config0) <==>
            source == source0 && SameForOperator(config, config0)
  {
    hide Operator, SameForOperator;
    OperatorIff(config, config0);
  }

  /** The key-wise merge a checkpoint commit performs. */
  function Patched(config: Config, patch: Config): Config {
    config + patch
  }

  /** Patching keys that begin with an underscore leaves the operator's part alone. */
  lemma WorkerPatchKeepsOperator(config: Config, patch: Config)
    requires forall k :: k in patch ==> k != "" && k[0] == '_'
    ensures SameForOperator(Patched(config, patch), config)
    ensures forall k :: k in patch ==> k in Patched(config, patch) && Patched(config, patch)[k] == patch[k]
  {
  }

  /** The next attempt on the same connector resumes exactly where the last page left it,
      whatever other keys that begin with an underscore are written in between; after
      completion, which writes a null checkpoint, it starts afresh. */
  lemma NextAttemptResumes(codec: Codec, source: string, config: Config, full: bool, since: Option<Timestamp>,
                           cursor: string,
                           token: Option<string>, built: Timestamp, later: Config, now: Timestamp, ttlSeconds: int)
    requires Faithful(codec) && cursor != "" && built.offset.Some? && (since.Some? ==> since.value.offset.Some?)
    requires built.micros <= now.micros <= built.micros + ttlSeconds * 1_000_000
    requires forall k :: k in later ==> k != "" && k[0] == '_' && k != CHECKPOINT_KEY
    ensures var checkpoint := Build(codec, source, config, full, since, cursor, token, built);
            var saved := Patched(Patched(config, map[CHECKPOINT_KEY := checkpoint]), later);
            && Load(codec, source, saved, full, now, ttlSeconds) == Some(Loaded(since, cursor, token))
            && Load(codec, source, Patched(saved, map[CHECKPOINT_KEY := Null]), full, now, ttlSeconds) == None
  {
    hide Load, Build, Get, SameForOperator;
    var checkpoint := Build(codec, source, config, full, since, cursor, token, built);
    var once := Patched(config, map[CHECKPOINT_KEY := checkpoint]);
    WorkerPatchKeepsOperator(config, map[CHECKPOINT_KEY := checkpoint]);
    WorkerPatchKeepsOperator(once, later);
    SameTwice(Patched(once, later), once, config);
    LoadOfBuilt(codec, source, config, full, since, cursor, token, built,
                source, Patched(once, later), full, now, ttlSeconds);
    LoadNeedsObject(codec, source, Patched(Patched(once, later), map[CHECKPOINT_KEY := Null]), full, now, ttlSeconds);
  }

  lemma SameTwice(x: Config, y: Config, z: Config)
    requires SameForOperator(x, y) && SameForOperator(y, z)
    ensures SameForOperator(x, z)
  {
  }
}
