/** Merging of configuration layers: policies and switches can only be tightened by later layers,
    and the provider of the cloud demo profile is locked. */
module ConfigMerge {
  import Sorting

  datatype PolicyValue = ALLOW | DENY | DENY_HARD

  datatype Value = Policy(policy: PolicyValue) | Flag(flag: bool) | Provider(provider: string)

  /** A layer names its values in the order of its mapping. */
  datatype Layer = Layer(name: string, entries: seq<(string, Value)>)

  /** One entry of one layer. */
  datatype Setting = Setting(layer: string, key: string, value: Value)

  datatype Config = Config(values: map<string, Value>, sources: map<string, string>, notes: map<string, seq<string>>)

  datatype Result = Merged(config: Config) | Rejected(message: string)

  const POLICY_KEYS := {"shell_policy", "network_policy"}
  const FLAG_KEYS := {"allow_arbitrary_repo_paths", "allow_repository_upload"}
  const PROVIDER_KEY := "llm_provider"
  const CLOUD_DEMO := "profile:CLOUD_DEMO"
  const EMPTY := Config(map[], map[], map[])

  predicate KnownKey(key: string) {
    key in POLICY_KEYS || key in FLAG_KEYS || key == PROVIDER_KEY
  }

  /** The documented keys and the kind of value each of them takes. */
  predicate WellTyped(s: Setting) {
    || (s.key in {"shell_policy", "network_policy"} && s.value.Policy?)
    || (s.key in {"allow_arbitrary_repo_paths", "allow_repository_upload"} && s.value.Flag?)
    || (s.key == "llm_provider" && s.value.Provider?)
  }

  function Rank(p: PolicyValue): nat {
    match p
    case ALLOW => 0
    case DENY => 1
    case DENY_HARD => 2
  }

  function Name(p: PolicyValue): string {
    match p
    case ALLOW => "ALLOW"
    case DENY => "DENY"
    case DENY_HARD => "DENY_HARD"
  }

  function Store(c: Config, s: Setting): Config {
    c.(values := c.values[s.key := s.value], sources := c.sources[s.key := s.layer])
  }

  function NotesFor(c: Config, key: string): seq<string> {
    if key in c.notes then c.notes[key] else []
  }

  function Note(c: Config, s: Setting, text: string): Config {
    c.(notes := c.notes[s.key := NotesFor(c, s.key) + [text]])
  }

  function SourceOf(c: Config, key: string): string {
    if key in c.sources then c.sources[key] else ""
  }

  function PutPolicy(c: Config, s: Setting): Config
    requires s.value.Policy?
  {
    if s.key !in c.values || !c.values[s.key].Policy? || Rank(s.value.policy) > Rank(c.values[s.key].policy)
    then Store(c, s)
    else if Rank(s.value.policy) < Rank(c.values[s.key].policy) then
      Note(c, s, s.layer + " attempted to relax " + s.key + " from " + Name(c.values[s.key].policy) + " to "
                 + Name(s.value.policy) + "; kept " + SourceOf(c, s.key))
    else c
  }

  function PutFlag(c: Config, s: Setting): Config
    requires s.value.Flag?
  {
    if s.key in c.values && c.values[s.key] == Flag(false) && s.value.flag then
      Note(c, s, s.layer + " attempted to relax " + s.key + "; kept " + SourceOf(c, s.key))
    else if s.key !in c.values || !s.value.flag then Store(c, s)
    else c
  }

  function PutProvider(c: Config, s: Setting): Config
    requires s.value.Provider?
  {
    if s.key in c.values && c.values[s.key] == Provider("mock") && s.value != Provider("mock")
       && SourceOf(c, s.key) == CLOUD_DEMO then
      Note(c, s, s.layer + " attempted to relax " + s.key + "; kept profile:CLOUD_DEMO")
    else Store(c, s)
  }

  function Put(c: Config, s: Setting): Result {
    if !KnownKey(s.key) then Rejected("unknown config key: " + s.key)
    else if s.key in POLICY_KEYS then
      if s.value.Policy? then Merged(PutPolicy(c, s)) else Rejected(s.key + " must be a PolicyValue")
    else if s.key in FLAG_KEYS then
      if s.value.Flag? then Merged(PutFlag(c, s)) else Rejected(s.key + " must be a bool")
    else
      if s.value.Provider? then Merged(PutProvider(c, s)) else Rejected(s.key + " must be a string")
  }

  /** The merge of a list of settings; the first that is not acceptable rejects it. */
  function Merge(settings: seq<Setting>): Result {
    if settings == [] then Merged(EMPTY)
    else
      var n := |settings| - 1;
      match Merge(settings[..n])
      case Rejected(message) => Rejected(message)
      case Merged(c) => Put(c, settings[n])
  }

  function EntriesOf(layer: Layer): seq<Setting> {
    seq(|layer.entries|, i requires 0 <= i < |layer.entries| =>
      Setting(layer.name, layer.entries[i].0, layer.entries[i].1))
  }

  function Flatten(layers: seq<Layer>): seq<Setting> {
    if layers == [] then [] else Flatten(layers[..|layers| - 1]) + EntriesOf(layers[|layers| - 1])
  }

  // ----- the merging loops

  class Merger {
    var values: map<string, Value>
    var sources: map<string, string>
    var notes: map<string, seq<string>>

    constructor ()
      ensures State() == EMPTY
    {
      values, sources, notes := map[], map[], map[];
    }

    function State(): Config
      reads this
    {
      Config(values, sources, notes)
    }

    method AddNote(key: string, text: string)
      modifies this
      ensures State() == Note(old(State()), Setting("", key, Flag(false)), text)
    {
      notes := notes[key := (if key in notes then notes[key] else []) + [text]];
    }

    method MergePolicy(key: string, incoming: PolicyValue, layer: string)
      modifies this
      ensures State() == PutPolicy(old(State()), Setting(layer, key, Policy(incoming)))
    {
      if key !in values || !values[key].Policy? || Rank(incoming) > Rank(values[key].policy) {
        values, sources := values[key := Policy(incoming)], sources[key := layer];
        return;
      }
      if Rank(incoming) < Rank(values[key].policy) {
        AddNote(key, layer + " attempted to relax " + key + " from " + Name(values[key].policy) + " to "
                     + Name(incoming) + "; kept " + (if key in sources then sources[key] else ""));
      }
    }

    method MergeFlag(key: string, incoming: bool, layer: string)
      modifies this
      ensures State() == PutFlag(old(State()), Setting(layer, key, Flag(incoming)))
    {
      if key in values && values[key] == Flag(false) && incoming {
        AddNote(key, layer + " attempted to relax " + key + "; kept " + (if key in sources then sources[key] else ""));
        return;
      }
      if key !in values || !incoming {
        values, sources := values[key := Flag(incoming)], sources[key := layer];
      }
    }

    method MergeProvider(key: string, incoming: string, layer: string)
      modifies this
      ensures State() == PutProvider(old(State()), Setting(layer, key, Provider(incoming)))
    {
      if key in values && values[key] == Provider("mock") && incoming != "mock"
         && key in sources && sources[key] == CLOUD_DEMO {
        AddNote(key, layer + " attempted to relax " + key + "; kept profile:CLOUD_DEMO");
        return;
      }
      values, sources := values[key := Provider(incoming)], sources[key := layer];
    }

    /** One entry of a layer; an error message if it is not acceptable. */
    method MergeEntry(s: Setting) returns (error: string)
      modifies this
      ensures Put(old(State()), s) == if error == "" then Merged(State()) else Rejected(error)
    {
      error := "";
      if !KnownKey(s.key) {
        return "unknown config key: " + s.key;
      }
      if s.key in POLICY_KEYS {
        if !s.value.Policy? { return s.key + " must be a PolicyValue"; }
        MergePolicy(s.key, s.value.policy, s.layer);
      } else if s.key in FLAG_KEYS {
        if !s.value.Flag? { return s.key + " must be a bool"; }
        MergeFlag(s.key, s.value.flag, s.layer);
      } else {
        if !s.value.Provider? { return s.key + " must be a string"; }
        MergeProvider(s.key, s.value.provider, s.layer);
      }
    }
  }

  lemma MergeStep(settings: seq<Setting>, c: Config, s: Setting)
    requires Merge(settings) == Merged(c)
    ensures Merge(settings + [s]) == Put(c, s)
  {
    assert (settings + [s])[..|settings|] == settings;
  }

  /** The entries of one layer, on top of what has been merged before. */
  method MergeLayer(merger: Merger, layer: Layer, ghost before: seq<Setting>) returns (error: string)
    requires Merge(before) == Merged(merger.State())
    modifies merger
    ensures error == "" ==> Merge(before + EntriesOf(layer)) == Merged(merger.State())
    ensures error != "" ==> exists j: nat :: RejectedAt(before, layer, j, error)
  {
    hide Put, Merge;
    var entries := EntriesOf(layer);
    assert before + entries[..0] == before;
    var j := 0;
    while j < |entries|
      invariant 0 <= j <= |entries|
      invariant Merge(before + entries[..j]) == Merged(merger.State())
    {
      MergeStep(before + entries[..j], merger.State(), entries[j]);
      assert before + entries[..j] + [entries[j]] == before + entries[..j + 1];
      error := merger.MergeEntry(entries[j]);
      if error != "" {
        assert RejectedAt(before, layer, j + 1, error);
        return;
      }
      j := j + 1;
    }
    assert entries[..j] == entries;
    error := "";
  }

  ghost predicate RejectedAt(before: seq<Setting>, layer: Layer, j: nat, error: string) {
    j <= |layer.entries| && Merge(before + EntriesOf(layer)[..j]) == Rejected(error)
  }

  method MergeConfig(layers: seq<Layer>) returns (r: Result)
    ensures r == Merge(Flatten(layers))
  {
    var merger := new Merger();
    var i := 0;
    while i < |layers|
      invariant 0 <= i <= |layers|
      invariant Merge(Flatten(layers[..i])) == Merged(merger.State())
    {
      assert layers[..i + 1][..i] == layers[..i];
      var error := MergeLayer(merger, layers[i], Flatten(layers[..i]));
      if error != "" {
        ghost var j: nat :| RejectedAt(Flatten(layers[..i]), layers[i], j, error);
        FlattenPrefix(layers, i, j);
        ghost var n := |Flatten(layers[..i])| + j;
        assert Flatten(layers)[..n] == Flatten(layers[..i]) + EntriesOf(layers[i])[..j];
        RejectionStays(Flatten(layers), n);
        return Rejected(error);
      }
      i := i + 1;
    }
    assert layers[..i] == layers;
    return Merged(merger.State());
  }

  lemma {:induction false} FlattenPrefix(layers: seq<Layer>, i: nat, j: nat)
    requires i < |layers| && j <= |layers[i].entries|
    ensures Flatten(layers[..i]) + EntriesOf(layers[i])[..j] <= Flatten(layers)
    decreases |layers|
  {
    var n := |layers| - 1;
    if i < n {
      FlattenPrefix(layers[..n], i, j);
      assert layers[..n][..i] == layers[..i];
    }
  }

  lemma {:induction false} RejectionStays(settings: seq<Setting>, n: nat)
    requires n <= |settings| && Merge(settings[..n]).Rejected?
    ensures Merge(settings) == Merge(settings[..n])
    decreases |settings|
  {
    if n < |settings| {
      var m := |settings| - 1;
      assert settings[..m][..n] == settings[..n];
      RejectionStays(settings[..m], n);
    } else {
      assert settings[..n] == settings;
    }
  }

  // ----- what the merge computes, key by key

  /** A merge is accepted exactly when every setting is known and of the right type. */
  lemma {:induction false} AcceptedIfWellTyped(settings: seq<Setting>)
    ensures Merge(settings).Merged? <==> forall i :: 0 <= i < |settings| ==> WellTyped(settings[i])
    decreases |settings|
  {
    if settings != [] {
      var n := |settings| - 1;
      AcceptedIfWellTyped(settings[..n]);
    }
  }

  /** Setting i is the first that is not acceptable, and this is what is said about it. */
  ghost predicate FirstComplaint(settings: seq<Setting>, i: nat, message: string) {
    && i < |settings| && !WellTyped(settings[i]) && (forall j :: 0 <= j < i ==> WellTyped(settings[j]))
    && var k := settings[i].key;
       message == if k in {"shell_policy", "network_policy"} then k + " must be a PolicyValue"
                  else if k in {"allow_arbitrary_repo_paths", "allow_repository_upload"} then k + " must be a bool"
                  else if k == "llm_provider" then k + " must be a string"
                  else "unknown config key: " + k
  }

  lemma {:induction false} RejectedForFirst(settings: seq<Setting>) returns (i: nat)
    requires Merge(settings).Rejected?
    ensures FirstComplaint(settings, i, Merge(settings).message)
    decreases |settings|
  {
    hide Put;
    var n := |settings| - 1;
    AcceptedIfWellTyped(settings[..n]);
    if Merge(settings[..n]).Rejected? {
      i := RejectedForFirst(settings[..n]);
    } else {
      i := n;
      PutComplains(Merge(settings[..n]).config, settings[n]);
      assert forall j :: 0 <= j < n ==> settings[..n][j] == settings[j];
    }
  }

  lemma PutComplains(c: Config, s: Setting)
    requires Put(c, s).Rejected?
    ensures FirstComplaint([s], 0, Put(c, s).message)
  {
  }

  /** Layers are merged in order, and the entries of each in order, under its name. */
  lemma {:induction false} EntryAt(layers: seq<Layer>, a: nat, e: nat)
    requires a < |layers| && e < |layers[a].entries|
    ensures |Flatten(layers[..a + 1])| == |Flatten(layers[..a])| + |layers[a].entries|
    ensures |Flatten(layers[..a])| + e < |Flatten(layers)|
    ensures var s := Flatten(layers)[|Flatten(layers[..a])| + e];
            s.layer == layers[a].name && s.key == layers[a].entries[e].0 && s.value == layers[a].entries[e].1
    decreases |layers|
  {
    var n := |layers| - 1;
    if a < n {
      EntryAt(layers[..n], a, e);
      assert layers[..n][..a] == layers[..a] && layers[..n][..a + 1] == layers[..a + 1];
    } else {
      assert layers[..a + 1] == layers;
    }
  }

  ghost predicate Sets(settings: seq<Setting>, i: int, k: string) {
    0 <= i < |settings| && settings[i].key == k
  }

  ghost predicate IsSet(settings: seq<Setting>, k: string) {
    exists i :: Sets(settings, i, k)
  }

  lemma IsSetStep(settings: seq<Setting>, k: string)
    requires settings != []
    ensures var n := |settings| - 1; IsSet(settings, k) <==> IsSet(settings[..n], k) || settings[n].key == k
  {
    var n := |settings| - 1;
    if IsSet(settings[..n], k) {
      var i :| Sets(settings[..n], i, k);
      assert Sets(settings, i, k);
    }
    if settings[n].key == k { assert Sets(settings, n, k); }
    if IsSet(settings, k) && settings[n].key != k {
      var i :| Sets(settings, i, k);
      assert Sets(settings[..n], i, k);
    }
  }

  ghost predicate SameAt(c: Config, d: Config, k: string) {
    && (k in d.values <==> k in c.values) && (k in c.values ==> d.values[k] == c.values[k])
    && SourceOf(d, k) == SourceOf(c, k) && NotesFor(d, k) == NotesFor(c, k)
  }

  lemma StoreAndNoteAreLocal(c: Config, s: Setting, text: string, k: string)
    requires s.key != k
    ensures SameAt(c, Store(c, s), k) && SameAt(c, Note(c, s, text), k) && SameAt(c, c, k)
  {
  }

  /** A setting touches only its own key. */
  lemma PutOther(c: Config, s: Setting, k: string)
    requires Put(c, s).Merged? && s.key != k
    ensures SameAt(c, Put(c, s).config, k)
  {
    var d := Put(c, s).config;
    if d != c && d != Store(c, s) {
      var texts := NotesFor(d, s.key);
      assert d == Note(c, s, texts[|texts| - 1]);
      StoreAndNoteAreLocal(c, s, texts[|texts| - 1], k);
    } else {
      StoreAndNoteAreLocal(c, s, "", k);
    }
  }

  function RankOf(s: Setting): int {
    if s.value.Policy? then Rank(s.value.policy) else -1
  }

  /** Setting i is the first to reach the maximum for its key. */
  ghost predicate FirstMax(settings: seq<Setting>, k: string, i: nat) {
    && Sets(settings, i, k)
    && (forall j :: Sets(settings, j, k) ==> RankOf(settings[j]) <= RankOf(settings[i]))
    && forall j :: Sets(settings, j, k) && j < i ==> RankOf(settings[j]) < RankOf(settings[i])
  }

  /** Setting n asks for less than an earlier setting of the same key. */
  ghost predicate RelaxesPolicy(settings: seq<Setting>, n: nat)
    requires n < |settings|
  {
    exists j :: Sets(settings[..n], j, settings[n].key) && RankOf(settings[j]) > RankOf(settings[n])
  }

  ghost function PolicyRelaxations(settings: seq<Setting>, k: string): nat {
    if settings == [] then 0
    else
      var n := |settings| - 1;
      PolicyRelaxations(settings[..n], k) + if settings[n].key == k && RelaxesPolicy(settings, n) then 1 else 0
  }

  /** A merged policy is the maximum of all layers, attributed to the first that reaches it, with one
      note for every attempt to relax it. */
  lemma {:induction false} PolicyIsMaximum(settings: seq<Setting>, k: string) returns (i: nat)
    requires Merge(settings).Merged? && k in POLICY_KEYS
    ensures var c := Merge(settings).config;
            && (k in c.values <==> IsSet(settings, k))
            && (k in c.values ==> FirstMax(settings, k, i) && c.values[k] == settings[i].value
                                  && SourceOf(c, k) == settings[i].layer && settings[i].value.Policy?)
            && |NotesFor(c, k)| == PolicyRelaxations(settings, k)
    decreases |settings|
  {
    i := 0;
    if settings != [] {
      var n := |settings| - 1;
      i := PolicyIsMaximum(settings[..n], k);
      IsSetStep(settings, k);
      var c := Merge(settings[..n]).config;
      if settings[n].key != k {
        PutOther(c, settings[n], k);
        if k in c.values { FirstMaxGrows(settings, k, i); }
      } else {
        assert settings[n].value.Policy?;
        RelaxesByMax(settings, k, i);
        if k !in c.values || RankOf(settings[n]) > RankOf(settings[i]) {
          NewMax(settings, k, i);
          i := n;
        } else {
          FirstMaxGrows(settings, k, i);
        }
      }
    }
  }

  lemma FirstMaxGrows(settings: seq<Setting>, k: string, i: nat)
    requires settings != [] && FirstMax(settings[..|settings| - 1], k, i)
    requires settings[|settings| - 1].key == k ==> RankOf(settings[|settings| - 1]) <= RankOf(settings[i])
    ensures FirstMax(settings, k, i)
  {
    var n := |settings| - 1;
    forall j | Sets(settings, j, k) && j < n ensures Sets(settings[..n], j, k) && settings[..n][j] == settings[j] {
    }
  }

  lemma NewMax(settings: seq<Setting>, k: string, i: nat)
    requires settings != [] && settings[|settings| - 1].key == k
    requires IsSet(settings[..|settings| - 1], k) ==>
               FirstMax(settings[..|settings| - 1], k, i) && RankOf(settings[i]) < RankOf(settings[|settings| - 1])
    ensures FirstMax(settings, k, |settings| - 1)
  {
    var n := |settings| - 1;
    forall j | Sets(settings, j, k) && j < n ensures RankOf(settings[j]) < RankOf(settings[n]) {
      assert Sets(settings[..n], j, k) && settings[..n][j] == settings[j];
    }
  }

  lemma RelaxesByMax(settings: seq<Setting>, k: string, i: nat)
    requires settings != [] && settings[|settings| - 1].key == k
    requires IsSet(settings[..|settings| - 1], k) ==> FirstMax(settings[..|settings| - 1], k, i)
    ensures var n := |settings| - 1;
            RelaxesPolicy(settings, n) <==> IsSet(settings[..n], k) && RankOf(settings[n]) < RankOf(settings[i])
  {
    var n := |settings| - 1;
    if IsSet(settings[..n], k) {
      assert settings[..n][i] == settings[i];
      forall j | Sets(settings[..n], j, k) ensures RankOf(settings[j]) <= RankOf(settings[i]) {
        assert settings[..n][j] == settings[j];
      }
    }
  }

  // ----- policies by name

  /** Some setting of the key asks for this policy. */
  ghost predicate Asks(settings: seq<Setting>, k: string, v: PolicyValue) {
    exists i :: 0 <= i < |settings| && settings[i].key == k && settings[i].value == Policy(v)
  }

  lemma AsksStep(settings: seq<Setting>, k: string, v: PolicyValue)
    requires settings != []
    ensures var n := |settings| - 1;
            Asks(settings, k, v)
            <==> Asks(settings[..n], k, v) || (settings[n].key == k && settings[n].value == Policy(v))
  {
    var n := |settings| - 1;
    if i :| 0 <= i < n && settings[..n][i].key == k && settings[..n][i].value == Policy(v) {
      assert settings[i].key == k && settings[i].value == Policy(v);
    }
    if i :| 0 <= i < n && settings[i].key == k && settings[i].value == Policy(v) {
      assert settings[..n][i].key == k && settings[..n][i].value == Policy(v);
    }
  }

  /** The strictest policy asked for. */
  ghost function Strictest(settings: seq<Setting>, k: string): PolicyValue {
    if Asks(settings, k, DENY_HARD) then DENY_HARD else if Asks(settings, k, DENY) then DENY else ALLOW
  }

  predicate Laxer(a: PolicyValue, b: PolicyValue) {
    (a == ALLOW && b != ALLOW) || (a == DENY && b == DENY_HARD)
  }

  ghost function Spelled(v: PolicyValue): string {
    if v == DENY_HARD then "DENY_HARD" else if v == DENY then "DENY" else "ALLOW"
  }

  /** The layer of the first setting that asks for this policy. */
  ghost function FirstToAsk(settings: seq<Setting>, k: string, v: PolicyValue): string {
    if settings == [] then ""
    else
      var n := |settings| - 1;
      if Asks(settings[..n], k, v) then FirstToAsk(settings[..n], k, v) else settings[n].layer
  }

  lemma {:induction false} FirstToAskIsFirst(settings: seq<Setting>, k: string, v: PolicyValue) returns (i: nat)
    requires Asks(settings, k, v)
    ensures i < |settings| && settings[i].key == k && settings[i].value == Policy(v)
    ensures FirstToAsk(settings, k, v) == settings[i].layer
    ensures forall j :: 0 <= j < i && settings[j].key == k ==> settings[j].value != Policy(v)
    decreases |settings|
  {
    var n := |settings| - 1;
    AsksStep(settings, k, v);
    if Asks(settings[..n], k, v) {
      i := FirstToAskIsFirst(settings[..n], k, v);
      assert forall j :: 0 <= j < n ==> settings[..n][j] == settings[j];
    } else {
      i := n;
      forall j | 0 <= j < n && settings[j].key == k ensures settings[j].value != Policy(v) {
        assert settings[..n][j] == settings[j];
      }
    }
  }

  /** One note for every setting laxer than what was asked for before, naming both and the layer that
      prevails. */
  ghost function PolicyNotes(settings: seq<Setting>, k: string): seq<string> {
    if settings == [] then []
    else
      var n := |settings| - 1;
      var before := settings[..n];
      var s := settings[n];
      PolicyNotes(before, k)
      + if s.key == k && s.value.Policy? && IsSet(before, k) && Laxer(s.value.policy, Strictest(before, k)) then
          [s.layer + " attempted to relax " + k + " from " + Spelled(Strictest(before, k)) + " to "
           + Spelled(s.value.policy) + "; kept " + FirstToAsk(before, k, Strictest(before, k))]
        else []
  }

  /** A merged policy is the strictest that was asked for, DENY_HARD before DENY before ALLOW, attributed
      to the first layer asking for it; every laxer setting leaves its note and nothing else does. */
  lemma {:induction false} PolicyByName(settings: seq<Setting>, k: string)
    requires Merge(settings).Merged? && k in {"shell_policy", "network_policy"}
    ensures var c := Merge(settings).config;
            && (k in c.values <==> IsSet(settings, k))
            && (k in c.values ==> && c.values[k] == Policy(Strictest(settings, k))
                                  && Asks(settings, k, Strictest(settings, k))
                                  && SourceOf(c, k) == FirstToAsk(settings, k, Strictest(settings, k)))
            && NotesFor(c, k) == PolicyNotes(settings, k)
    decreases |settings|
  {
    if settings != [] {
      var n := |settings| - 1;
      PolicyByName(settings[..n], k);
      IsSetStep(settings, k);
      AsksStep(settings, k, DENY_HARD);
      AsksStep(settings, k, DENY);
      AsksStep(settings, k, ALLOW);
      var c := Merge(settings[..n]).config;
      if settings[n].key != k {
        PutOther(c, settings[n], k);
      } else {
        assert settings[n].value.Policy?;
        PutPolicyByName(settings, k, c);
      }
    }
  }

  lemma AsksIsSet(settings: seq<Setting>, k: string, v: PolicyValue)
    ensures Asks(settings, k, v) ==> IsSet(settings, k)
  {
    if i :| 0 <= i < |settings| && settings[i].key == k && settings[i].value == Policy(v) {
      assert Sets(settings, i, k);
    }
  }

  lemma PutPolicyByName(settings: seq<Setting>, k: string, c: Config)
    requires settings != [] && settings[|settings| - 1].key == k && settings[|settings| - 1].value.Policy?
    requires var before := settings[..|settings| - 1];
             && (k in c.values <==> IsSet(before, k))
             && (k in c.values ==> && c.values[k] == Policy(Strictest(before, k))
                                   && Asks(before, k, Strictest(before, k))
                                   && SourceOf(c, k) == FirstToAsk(before, k, Strictest(before, k)))
             && NotesFor(c, k) == PolicyNotes(before, k)
    ensures var d := PutPolicy(c, settings[|settings| - 1]);
            && k in d.values && d.values[k] == Policy(Strictest(settings, k))
            && Asks(settings, k, Strictest(settings, k))
            && SourceOf(d, k) == FirstToAsk(settings, k, Strictest(settings, k))
            && NotesFor(d, k) == PolicyNotes(settings, k)
  {
    hide Asks, IsSet;
    var n := |settings| - 1;
    var before, now := settings[..n], settings[n].value.policy;
    AsksStep(settings, k, DENY_HARD);
    AsksStep(settings, k, DENY);
    AsksStep(settings, k, ALLOW);
    AsksIsSet(before, k, DENY_HARD);
    AsksIsSet(before, k, DENY);
    AsksIsSet(before, k, ALLOW);
    assert Strictest(settings, k)
           == if k in c.values && !Laxer(Strictest(before, k), now) then Strictest(before, k) else now;
  }

  // ----- switches

  ghost predicate SaysFalse(settings: seq<Setting>, i: int, k: string) {
    Sets(settings, i, k) && settings[i].value == Flag(false)
  }

  ghost predicate AnyFalse(settings: seq<Setting>, k: string) {
    exists i :: SaysFalse(settings, i, k)
  }

  lemma AnyFalseStep(settings: seq<Setting>, k: string)
    requires settings != []
    ensures var n := |settings| - 1; AnyFalse(settings, k) <==> AnyFalse(settings[..n], k) || SaysFalse(settings, n, k)
  {
    var n := |settings| - 1;
    if AnyFalse(settings[..n], k) {
      var i :| SaysFalse(settings[..n], i, k);
      assert SaysFalse(settings, i, k);
    }
    if AnyFalse(settings, k) && !SaysFalse(settings, n, k) {
      var i :| SaysFalse(settings, i, k);
      assert SaysFalse(settings[..n], i, k);
    }
  }

  ghost function FlagRelaxations(settings: seq<Setting>, k: string): nat {
    if settings == [] then 0
    else
      var n := |settings| - 1;
      FlagRelaxations(settings[..n], k)
      + if settings[n].key == k && settings[n].value == Flag(true) && AnyFalse(settings[..n], k) then 1 else 0
  }

  /** Setting i is the last that says false, or the first of all if none does. */
  ghost predicate FlagSource(settings: seq<Setting>, k: string, i: nat) {
    if AnyFalse(settings, k) then
      SaysFalse(settings, i, k) && forall j :: SaysFalse(settings, j, k) ==> j <= i
    else
      Sets(settings, i, k) && forall j :: Sets(settings, j, k) ==> i <= j
  }

  /** A merged switch is the conjunction of all layers; false is attributed to the last layer that says
      so, and every later attempt to switch it on leaves one note. */
  lemma {:induction false} FlagIsConjunction(settings: seq<Setting>, k: string) returns (i: nat)
    requires Merge(settings).Merged? && k in FLAG_KEYS
    ensures var c := Merge(settings).config;
            && (k in c.values <==> IsSet(settings, k))
            && (k in c.values ==> FlagSource(settings, k, i) && c.values[k] == Flag(!AnyFalse(settings, k))
                                  && SourceOf(c, k) == settings[i].layer)
            && |NotesFor(c, k)| == FlagRelaxations(settings, k)
    decreases |settings|
  {
    i := 0;
    if settings != [] {
      var n := |settings| - 1;
      i := FlagIsConjunction(settings[..n], k);
      IsSetStep(settings, k);
      AnyFalseStep(settings, k);
      var c := Merge(settings[..n]).config;
      if settings[n].key != k {
        PutOther(c, settings[n], k);
        if k in c.values { FlagSourceGrows(settings, k, i); }
      } else {
        assert settings[n].value.Flag?;
        if k !in c.values || !settings[n].value.flag {
          NewFlagSource(settings, k);
          i := n;
        } else {
          FlagSourceGrows(settings, k, i);
        }
      }
    }
  }

  lemma FlagSourceGrows(settings: seq<Setting>, k: string, i: nat)
    requires settings != [] && FlagSource(settings[..|settings| - 1], k, i) && !SaysFalse(settings, |settings| - 1, k)
    ensures FlagSource(settings, k, i)
  {
    var n := |settings| - 1;
    AnyFalseStep(settings, k);
    forall j | Sets(settings, j, k) && j < n ensures Sets(settings[..n], j, k) && settings[..n][j] == settings[j] {
    }
    forall j | SaysFalse(settings, j, k) ensures SaysFalse(settings[..n], j, k) {
    }
  }

  lemma NewFlagSource(settings: seq<Setting>, k: string)
    requires settings != [] && settings[|settings| - 1].key == k
    requires !IsSet(settings[..|settings| - 1], k) || SaysFalse(settings, |settings| - 1, k)
    ensures FlagSource(settings, k, |settings| - 1)
  {
    var n := |settings| - 1;
    AnyFalseStep(settings, k);
    if AnyFalse(settings[..n], k) {
      var i :| SaysFalse(settings[..n], i, k);
      assert Sets(settings[..n], i, k);
    }
    forall j | Sets(settings, j, k) && j < n ensures Sets(settings[..n], j, k) {
    }
  }

  /** The layer of the last setting that says false. */
  ghost function LastToForbid(settings: seq<Setting>, k: string): string {
    if settings == [] then ""
    else
      var n := |settings| - 1;
      if SaysFalse(settings, n, k) then settings[n].layer else LastToForbid(settings[..n], k)
  }

  ghost function FlagNotes(settings: seq<Setting>, k: string): seq<string> {
    if settings == [] then []
    else
      var n := |settings| - 1;
      FlagNotes(settings[..n], k)
      + if settings[n].key == k && settings[n].value == Flag(true) && AnyFalse(settings[..n], k) then
          [settings[n].layer + " attempted to relax " + k + "; kept " + LastToForbid(settings[..n], k)]
        else []
  }

  /** Every attempt to switch a forbidden switch on leaves a note that names the layer and the last one
      that forbids it, and nothing else leaves one. */
  lemma {:induction false} FlagNotesAre(settings: seq<Setting>, k: string)
    requires Merge(settings).Merged? && k in FLAG_KEYS
    ensures NotesFor(Merge(settings).config, k) == FlagNotes(settings, k)
    ensures AnyFalse(settings, k) ==> SourceOf(Merge(settings).config, k) == LastToForbid(settings, k)
    decreases |settings|
  {
    if settings != [] {
      var n := |settings| - 1;
      FlagNotesAre(settings[..n], k);
      var i := FlagIsConjunction(settings[..n], k);
      IsSetStep(settings, k);
      AnyFalseStep(settings, k);
      var c := Merge(settings[..n]).config;
      if settings[n].key != k {
        PutOther(c, settings[n], k);
      } else {
        assert settings[n].value.Flag?;
        FalseIsSet(settings[..n], k);
      }
    }
  }

  lemma FalseIsSet(settings: seq<Setting>, k: string)
    ensures AnyFalse(settings, k) ==> IsSet(settings, k)
  {
    if i :| SaysFalse(settings, i, k) { assert Sets(settings, i, k); }
  }

  // ----- order of the layers

  lemma FindIn(a: seq<Setting>, b: seq<Setting>, i: nat) returns (j: nat)
    requires multiset(a) == multiset(b) && i < |a|
    ensures j < |b| && b[j] == a[i]
  {
    assert a[i] in multiset(b);
    j :| 0 <= j < |b| && b[j] == a[i];
  }

  lemma WellTypedAnyOrder(a: seq<Setting>, b: seq<Setting>)
    requires multiset(a) == multiset(b) && Merge(a).Merged?
    ensures Merge(b).Merged?
  {
    AcceptedIfWellTyped(a);
    AcceptedIfWellTyped(b);
    forall i | 0 <= i < |b| ensures WellTyped(b[i]) {
      var j := FindIn(b, a, i);
    }
  }

  lemma SetAnyOrder(a: seq<Setting>, b: seq<Setting>, k: string)
    requires multiset(a) == multiset(b)
    ensures IsSet(a, k) ==> IsSet(b, k)
    ensures AnyFalse(a, k) ==> AnyFalse(b, k)
  {
    if IsSet(a, k) {
      var i :| Sets(a, i, k);
      var j := FindIn(a, b, i);
      assert Sets(b, j, k);
    }
    if AnyFalse(a, k) {
      var i :| SaysFalse(a, i, k);
      var j := FindIn(a, b, i);
      assert SaysFalse(b, j, k);
    }
  }

  lemma MaxAnyOrder(a: seq<Setting>, b: seq<Setting>, k: string, i: nat, j: nat)
    requires multiset(a) == multiset(b) && FirstMax(a, k, i) && FirstMax(b, k, j)
    ensures RankOf(a[i]) == RankOf(b[j])
  {
    var i' := FindIn(a, b, i);
    assert Sets(b, i', k);
    var j' := FindIn(b, a, j);
    assert Sets(a, j', k);
  }

  ghost predicate SameValue(c: Config, d: Config, k: string) {
    (k in c.values <==> k in d.values) && (k in c.values ==> c.values[k] == d.values[k])
  }

  lemma PolicyAnyOrder(a: seq<Setting>, b: seq<Setting>, k: string)
    requires multiset(a) == multiset(b) && k in POLICY_KEYS && Merge(a).Merged? && Merge(b).Merged?
    ensures SameValue(Merge(a).config, Merge(b).config, k)
  {
    hide Merge;
    SetAnyOrder(a, b, k);
    SetAnyOrder(b, a, k);
    var i := PolicyWinner(a, k);
    var j := PolicyWinner(b, k);
    if IsSet(a, k) {
      MaxAnyOrder(a, b, k, i, j);
      assert a[i].value == b[j].value;
    }
  }

  lemma PolicyWinner(settings: seq<Setting>, k: string) returns (i: nat)
    requires Merge(settings).Merged? && k in POLICY_KEYS
    ensures k in Merge(settings).config.values <==> IsSet(settings, k)
    ensures IsSet(settings, k) ==>
              && FirstMax(settings, k, i) && settings[i].value.Policy?
              && Merge(settings).config.values[k] == settings[i].value
  {
    i := PolicyIsMaximum(settings, k);
  }

  lemma FlagAnyOrder(a: seq<Setting>, b: seq<Setting>, k: string)
    requires multiset(a) == multiset(b) && k in FLAG_KEYS && Merge(a).Merged? && Merge(b).Merged?
    ensures SameValue(Merge(a).config, Merge(b).config, k)
  {
    SetAnyOrder(a, b, k);
    SetAnyOrder(b, a, k);
    var i := FlagIsConjunction(a, k);
    var j := FlagIsConjunction(b, k);
  }

  /** Merged policies and switches do not depend on the order of the settings. */
  lemma OrderIsIrrelevant(a: seq<Setting>, b: seq<Setting>, k: string)
    requires multiset(a) == multiset(b) && k in POLICY_KEYS + FLAG_KEYS
    ensures Merge(a).Merged? <==> Merge(b).Merged?
    ensures Merge(a).Merged? ==> SameValue(Merge(a).config, Merge(b).config, k)
  {
    if Merge(a).Merged? { WellTypedAnyOrder(a, b); }
    if Merge(b).Merged? { WellTypedAnyOrder(b, a); }
    if Merge(a).Merged? {
      if k in POLICY_KEYS { PolicyAnyOrder(a, b, k); } else { FlagAnyOrder(a, b, k); }
    }
  }

  lemma {:induction false} FlattenConcat(a: seq<Layer>, b: seq<Layer>)
    ensures Flatten(a + b) == Flatten(a) + Flatten(b)
    decreases |b|
  {
    hide EntriesOf;
    if b == [] {
      assert a + b == a;
    } else {
      var n := |b| - 1;
      assert (a + b)[..|a| + n] == a + b[..n];
      FlattenConcat(a, b[..n]);
    }
  }

  lemma FlattenAround(front: seq<Layer>, layer: Layer, back: seq<Layer>)
    ensures multiset(Flatten((front + [layer]) + back)) == multiset(Flatten(front + back)) + multiset(EntriesOf(layer))
  {
    hide Flatten, EntriesOf;
    FlattenConcat(front + [layer], back);
    FlattenConcat(front, [layer]);
    FlattenOne(layer);
    FlattenConcat(front, back);
  }

  lemma FlattenOne(layer: Layer)
    ensures Flatten([layer]) == EntriesOf(layer)
  {
    hide EntriesOf;
    assert [layer][..0] == [];
  }

  lemma FlattenSplit(layers: seq<Layer>, j: nat)
    requires j < |layers|
    ensures multiset(Flatten(layers))
         == multiset(Flatten(layers[..j] + layers[j + 1..])) + multiset(EntriesOf(layers[j]))
  {
    hide Flatten, EntriesOf;
    assert layers == (layers[..j] + [layers[j]]) + layers[j + 1..];
    FlattenAround(layers[..j], layers[j], layers[j + 1..]);
  }

  lemma {:induction false} FlattenAnyOrder(a: seq<Layer>, b: seq<Layer>)
    requires multiset(a) == multiset(b)
    ensures multiset(Flatten(a)) == multiset(Flatten(b))
    decreases |a|
  {
    if a == [] {
      Sorting.NoElements(b);
    } else {
      var j := Sorting.TakeOut(a, b);
      FlattenAnyOrder(a[..|a| - 1], b[..j] + b[j + 1..]);
      FlattenSplit(b, j);
    }
  }

  /** Merged policies and switches do not depend on the order of the layers. */
  lemma LayerOrderIsIrrelevant(a: seq<Layer>, b: seq<Layer>, k: string)
    requires multiset(a) == multiset(b) && k in POLICY_KEYS + FLAG_KEYS
    ensures Merge(Flatten(a)).Merged? <==> Merge(Flatten(b)).Merged?
    ensures Merge(Flatten(a)).Merged? ==> SameValue(Merge(Flatten(a)).config, Merge(Flatten(b)).config, k)
  {
    FlattenAnyOrder(a, b);
    OrderIsIrrelevant(Flatten(a), Flatten(b), k);
  }

  // ----- the provider lock

  /** The demo profile has set "mock" at i, and no other layer has set "mock" since. */
  ghost predicate LockedFrom(settings: seq<Setting>, i: int) {
    && Sets(settings, i, PROVIDER_KEY)
    && settings[i].value == Provider("mock") && settings[i].layer == "profile:CLOUD_DEMO"
    && forall j :: i < j && Sets(settings, j, PROVIDER_KEY) ==>
         settings[j].value != Provider("mock") || settings[j].layer == "profile:CLOUD_DEMO"
  }

  ghost predicate Locked(settings: seq<Setting>) {
    exists i :: LockedFrom(settings, i)
  }

  ghost predicate LastProvider(settings: seq<Setting>, i: nat) {
    Sets(settings, i, PROVIDER_KEY) && forall j :: Sets(settings, j, PROVIDER_KEY) ==> j <= i
  }

  ghost function LockedAttempts(settings: seq<Setting>): nat {
    if settings == [] then 0
    else
      var n := |settings| - 1;
      LockedAttempts(settings[..n])
      + if settings[n].key == PROVIDER_KEY && settings[n].value != Provider("mock") && Locked(settings[..n])
        then 1 else 0
  }

  lemma LockedStep(settings: seq<Setting>)
    requires settings != []
    ensures var n := |settings| - 1;
            var s := settings[n];
            Locked(settings) <==>
              if s.key != PROVIDER_KEY || s.value != Provider("mock") then Locked(settings[..n])
              else s.layer == CLOUD_DEMO
  {
    var n := |settings| - 1;
    var s := settings[n];
    if Locked(settings[..n]) {
      var i :| LockedFrom(settings[..n], i);
      if s.key != PROVIDER_KEY || s.value != Provider("mock") || s.layer == CLOUD_DEMO {
        assert LockedFrom(settings, i) by {
          forall j | i < j < n && Sets(settings, j, PROVIDER_KEY) ensures Sets(settings[..n], j, PROVIDER_KEY) {
          }
        }
      }
    }
    if Locked(settings) {
      var i :| LockedFrom(settings, i);
      if i < n {
        assert LockedFrom(settings[..n], i) by {
          forall j | Sets(settings[..n], j, PROVIDER_KEY) ensures Sets(settings, j, PROVIDER_KEY) {
          }
        }
      }
    }
    if s.key == PROVIDER_KEY && s.value == Provider("mock") && s.layer == CLOUD_DEMO {
      assert LockedFrom(settings, n);
    }
  }

  /** The demo profile's "mock" survives every later layer that asks for something else, and each such
      attempt leaves one note, until another layer itself sets "mock"; when the lock is not in force
      the last layer decides. */
  lemma {:induction false} ProviderLock(settings: seq<Setting>) returns (i: nat)
    requires Merge(settings).Merged?
    ensures var c := Merge(settings).config;
            && (PROVIDER_KEY in c.values <==> IsSet(settings, PROVIDER_KEY))
            && (Locked(settings) ==> PROVIDER_KEY in c.values && c.values[PROVIDER_KEY] == Provider("mock")
                                     && SourceOf(c, PROVIDER_KEY) == CLOUD_DEMO)
            && (PROVIDER_KEY in c.values && !Locked(settings) ==>
                  && LastProvider(settings, i)
                  && c.values[PROVIDER_KEY] == settings[i].value && SourceOf(c, PROVIDER_KEY) == settings[i].layer
                  && !(settings[i].value == Provider("mock") && settings[i].layer == CLOUD_DEMO))
            && |NotesFor(c, PROVIDER_KEY)| == LockedAttempts(settings)
    decreases |settings|
  {
    i := 0;
    if settings != [] {
      var n := |settings| - 1;
      i := ProviderLock(settings[..n]);
      IsSetStep(settings, PROVIDER_KEY);
      LockedStep(settings);
      var c := Merge(settings[..n]).config;
      if settings[n].key != PROVIDER_KEY {
        PutOther(c, settings[n], PROVIDER_KEY);
        if LastProvider(settings[..n], i) {
          forall j | Sets(settings, j, PROVIDER_KEY) ensures Sets(settings[..n], j, PROVIDER_KEY) {
          }
          assert LastProvider(settings, i);
        }
      } else {
        assert settings[n].value.Provider?;
        assert LastProvider(settings, n);
        i := n;
      }
    }
  }

  ghost function ProviderNotes(settings: seq<Setting>): seq<string> {
    if settings == [] then []
    else
      var n := |settings| - 1;
      ProviderNotes(settings[..n])
      + if settings[n].key == "llm_provider" && settings[n].value != Provider("mock") && Locked(settings[..n]) then
          [settings[n].layer + " attempted to relax " + "llm_provider" + "; kept profile:CLOUD_DEMO"]
        else []
  }

  /** Every attempt against the lock leaves a note that names the layer, and nothing else leaves one. */
  lemma {:induction false} ProviderNotesAre(settings: seq<Setting>)
    requires Merge(settings).Merged?
    ensures NotesFor(Merge(settings).config, "llm_provider") == ProviderNotes(settings)
    decreases |settings|
  {
    if settings != [] {
      var n := |settings| - 1;
      ProviderNotesAre(settings[..n]);
      var c := Merge(settings[..n]).config;
      if settings[n].key != "llm_provider" {
        PutOther(c, settings[n], "llm_provider");
      } else {
        assert settings[n].value.Provider?;
        LockIsSource(settings[..n], c);
      }
    }
  }

  lemma LockIsSource(settings: seq<Setting>, c: Config)
    requires Merge(settings) == Merged(c)
    ensures Locked(settings) <==>
              && "llm_provider" in c.values && c.values["llm_provider"] == Provider("mock")
              && SourceOf(c, "llm_provider") == "profile:CLOUD_DEMO"
  {
    var i := ProviderLock(settings);
  }
}
