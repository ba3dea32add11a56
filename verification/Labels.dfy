/** Content-label preferences of `packages/api/src/agent.ts`: written to both the new and
    the legacy label, and mapped back from legacy labels when read. */
module Labels {
  import opened Wrappers

  /** One stored preference. An entry of the content-label type may be malformed, and then
      need not have a label; a well-formed one passes the schema, which also rules out an
      empty labeler. */
  datatype Pref =
    | ContentLabel(name: Option<string>, labelerDid: Option<string>, visibility: string, valid: bool)
    | Other(id: int)

  predicate SchemaChecked(prefs: seq<Pref>) {
    forall i :: 0 <= i < |prefs| && prefs[i].ContentLabel? && prefs[i].valid ==>
      prefs[i].name.Some? && prefs[i].labelerDid != Some("")
  }

  /** An entry, malformed or not, for this label of this labeler (of no labeler: a global label). */
  predicate Names(p: Pref, key: string, labelerDid: Option<string>) {
    p.ContentLabel? && p.name == Some(key) && p.labelerDid == labelerDid
  }

  /** `prefs.filter(isValidContentLabelPref).findLast(...)` */
  function FindLast(prefs: seq<Pref>, key: string, labelerDid: Option<string>): (r: Option<Pref>)
    ensures r.Some? ==> Names(r.value, key, labelerDid) && r.value.valid
  {
    if prefs == [] then None
    else
      var p := prefs[|prefs| - 1];
      if Names(p, key, labelerDid) && p.valid then Some(p)
      else FindLast(prefs[..|prefs| - 1], key, labelerDid)
  }

  /** `prefs.filter(...)`: drops every entry for this label. */
  function Without(prefs: seq<Pref>, key: string, labelerDid: Option<string>): seq<Pref> {
    if prefs == [] then []
    else
      var p := prefs[|prefs| - 1];
      Without(prefs[..|prefs| - 1], key, labelerDid) + if Names(p, key, labelerDid) then [] else [p]
  }

  /** The entry found, or a new one, with the visibility assigned to it. */
  function Assigned(prefs: seq<Pref>, key: string, labelerDid: Option<string>, value: string): (p: Pref)
    ensures Names(p, key, labelerDid) && p.valid && p.visibility == value
  {
    var found := FindLast(prefs, key, labelerDid);
    if found.Some? then found.value.(visibility := value)
    else ContentLabel(Some(key), labelerDid, value, true)
  }

  lemma {:induction false} SchemaKept(prefs: seq<Pref>, key: string, labelerDid: Option<string>)
    ensures SchemaChecked(prefs) ==> SchemaChecked(Without(prefs, key, labelerDid))
  {
    if prefs != [] { SchemaKept(prefs[..|prefs| - 1], key, labelerDid); }
  }

  function LegacyOf(name: string): Option<string> {
    if name == "graphic-media" then Some("gore")
    else if name == "porn" then Some("nsfw")
    else if name == "sexual" then Some("suggestive")
    else None
  }

  /** The callback of `setContentLabelPref`. */
  function SetContentLabelPref(prefs: seq<Pref>, key: string, value: string, labelerDid: Option<string>): (r: seq<Pref>)
    ensures SchemaChecked(prefs) && labelerDid != Some("") ==> SchemaChecked(r)
  {
    SchemaKept(prefs, key, labelerDid);
    var labelPref := Assigned(prefs, key, labelerDid, value);
    var global := labelerDid.None? || labelerDid.value == "";
    var legacy := if global then LegacyOf(key) else None;
    var written := Without(prefs, key, labelerDid) + [labelPref];
    if legacy.None? then written
    else
      SchemaKept(written, legacy.value, None);
      Without(written, legacy.value, None) + [Assigned(prefs, legacy.value, None, value)]
  }

  // ---------------------------------------------------------------- reading

  /** `adjustLegacyContentLabelPref` */
  function Adjust(visibility: string): string {
    if visibility == "show" then "ignore" else visibility
  }

  const PROTO: string := "__proto__"

  /** The loop that applies the label preferences to the global labels. Assigning a string
      to an object's `__proto__` does nothing. */
  function RawLabels(defaults: map<string, string>, prefs: seq<Pref>): map<string, string>
    requires SchemaChecked(prefs)
  {
    if prefs == [] then defaults
    else
      var before, p := RawLabels(defaults, prefs[..|prefs| - 1]), prefs[|prefs| - 1];
      if p.ContentLabel? && p.valid && p.labelerDid.None? && p.name.value != PROTO
      then before[p.name.value := Adjust(p.visibility)]
      else before
  }

  /** What every JavaScript object inherits, under the names it is found by, as the text that
      it turns into when used as a key. All that matters here is that those texts are
      nobody's names. */
  ghost predicate Inherited(inherited: map<string, string>) {
    && (forall n :: n in inherited ==> Unpaired(n) && Unpaired(inherited[n]))
    && (forall n, m :: n in inherited && m in inherited ==> inherited[n] != m)
    && (forall n, m :: n in inherited && m in inherited && n != m ==> inherited[n] != inherited[m])
  }

  predicate Unpaired(name: string) {
    NewOf(name).None? && LegacyOf(name).None?
  }

  function NewOf(name: string): Option<string> {
    if name == "gore" then Some("graphic-media")
    else if name == "nsfw" then Some("porn")
    else if name == "suggestive" then Some("sexual")
    else None
  }

  /** `legacyToNewMap[label]`, as a key: the map is an object and so also finds what it inherits. */
  function Target(inherited: map<string, string>, name: string): Option<string> {
    if NewOf(name).Some? then NewOf(name)
    else if name in inherited then Some(inherited[name])
    else None
  }

  /** Labels after the remap: a label that something maps to reads like what maps to it. */
  ghost predicate Remapped(inherited: map<string, string>, labels: map<string, string>, result: map<string, string>) {
    && (forall l :: l in labels ==> l in result)
    && (forall l {:trigger l in result} :: l in result && l !in labels ==> exists s :: s in labels && Target(inherited, s) == Some(l))
    && (forall s :: s in labels && Target(inherited, s).Some? ==> Target(inherited, s).value in result && result[Target(inherited, s).value] == labels[s])
    && (forall l {:trigger result[l]} :: l in labels && (forall s :: s in labels ==> Target(inherited, s) != Some(l)) ==> result[l] == labels[l])
  }

  /** `remapLegacyLabels`: the keys are visited in any order. */
  method RemapLegacyLabels(inherited: map<string, string>, labels: map<string, string>) returns (result: map<string, string>)
    requires Inherited(inherited)
    ensures Remapped(inherited, labels, result)
  {
    result := labels;
    var left := labels.Keys;
    while left != {}
      invariant left <= labels.Keys
      invariant forall l :: l in result <==> l in labels || exists s :: s in labels && s !in left && Target(inherited, s) == Some(l)
      invariant forall s :: s in labels && s !in left && Target(inherited, s).Some? ==>
        Target(inherited, s).value in result && result[Target(inherited, s).value] == labels[s]
      invariant forall l :: l in labels && (forall s :: s in labels && s !in left ==> Target(inherited, s) != Some(l)) ==>
        result[l] == labels[l]
    {
      var labelName :| labelName in left;
      left := left - {labelName};
      TargetsApart(inherited, labelName);
      var newLabelName := Target(inherited, labelName);
      if newLabelName.Some? {
        result := result[newLabelName.value := result[labelName]];
      }
    }
  }

  /** Different labels map to different ones, and nothing maps to a label that maps itself. */
  lemma TargetsApart(inherited: map<string, string>, name: string)
    requires Inherited(inherited)
    ensures Target(inherited, name).Some? ==> Target(inherited, Target(inherited, name).value).None?
    ensures Target(inherited, name).Some? ==> forall s :: Target(inherited, s) != Some(name)
    ensures forall s :: s != name && Target(inherited, name).Some? ==> Target(inherited, s) != Target(inherited, name)
  {
  }

  // ----------------------------------------------------- what a write changes

  lemma {:induction false} FindLastWithout(prefs: seq<Pref>, key: string, labelerDid: Option<string>, k: string, d: Option<string>)
    ensures FindLast(Without(prefs, key, labelerDid), k, d) ==
      if k == key && d == labelerDid then None else FindLast(prefs, k, d)
  {
    if prefs != [] {
      var init, p := prefs[..|prefs| - 1], prefs[|prefs| - 1];
      FindLastWithout(init, key, labelerDid, k, d);
      var kept := Without(init, key, labelerDid);
      if Names(p, key, labelerDid) {
        assert Without(prefs, key, labelerDid) == kept;
      } else {
        FindLastSnoc(kept, p, k, d);
      }
    }
  }

  lemma FindLastSnoc(prefs: seq<Pref>, p: Pref, k: string, d: Option<string>)
    ensures FindLast(prefs + [p], k, d) == if Names(p, k, d) && p.valid then Some(p) else FindLast(prefs, k, d)
  {
    assert (prefs + [p])[..|prefs|] == prefs;
  }

  /** The labels a write touches: the key itself and, for a global one, its legacy twin. */
  predicate Touched(key: string, labelerDid: Option<string>, k: string, d: Option<string>) {
    (k == key && d == labelerDid)
    || ((labelerDid.None? || labelerDid.value == "") && LegacyOf(key) == Some(k) && d.None?)
  }

  /** After a write, looking up a touched label finds the new value, and any other label
      what it found before. */
  lemma {:induction false} LookupAfterWrite(prefs: seq<Pref>, key: string, value: string, labelerDid: Option<string>, k: string, d: Option<string>)
    ensures var found := FindLast(SetContentLabelPref(prefs, key, value, labelerDid), k, d);
      if Touched(key, labelerDid, k, d) then found.Some? && found.value.visibility == value
      else found == FindLast(prefs, k, d)
  {
    var labelPref := Assigned(prefs, key, labelerDid, value);
    var global := labelerDid.None? || labelerDid.value == "";
    var written := Without(prefs, key, labelerDid) + [labelPref];
    FindLastWithout(prefs, key, labelerDid, k, d);
    FindLastSnoc(Without(prefs, key, labelerDid), labelPref, k, d);
    if global && LegacyOf(key).Some? {
      var legacy := LegacyOf(key).value;
      FindLastWithout(written, legacy, None, k, d);
      FindLastSnoc(Without(written, legacy, None), Assigned(prefs, legacy, None, value), k, d);
    }
  }

  function Occurrences(prefs: seq<Pref>, key: string, labelerDid: Option<string>): nat {
    if prefs == [] then 0
    else Occurrences(prefs[..|prefs| - 1], key, labelerDid) + if Names(prefs[|prefs| - 1], key, labelerDid) then 1 else 0
  }

  lemma WithoutSnoc(prefs: seq<Pref>, p: Pref, key: string, labelerDid: Option<string>)
    ensures Without(prefs + [p], key, labelerDid) ==
      if Names(p, key, labelerDid) then Without(prefs, key, labelerDid) else Without(prefs, key, labelerDid) + [p]
  {
    assert (prefs + [p])[..|prefs|] == prefs;
    assert Without(prefs, key, labelerDid) + [] == Without(prefs, key, labelerDid);
  }

  lemma OccurrencesStep(init: seq<Pref>, p: Pref, key: string, labelerDid: Option<string>, k: string, d: Option<string>)
    requires Occurrences(Without(init, key, labelerDid), k, d) ==
      if k == key && d == labelerDid then 0 else Occurrences(init, k, d)
    ensures Occurrences(Without(init + [p], key, labelerDid), k, d) ==
      if k == key && d == labelerDid then 0 else Occurrences(init + [p], k, d)
  {
    WithoutSnoc(init, p, key, labelerDid);
    OccurrencesSnoc(init, p, k, d);
    OccurrencesSnoc(Without(init, key, labelerDid), p, k, d);
  }

  lemma {:induction false} OccurrencesWithout(prefs: seq<Pref>, key: string, labelerDid: Option<string>, k: string, d: Option<string>)
    ensures Occurrences(Without(prefs, key, labelerDid), k, d) ==
      if k == key && d == labelerDid then 0 else Occurrences(prefs, k, d)
  {
    if prefs != [] {
      var init, p := prefs[..|prefs| - 1], prefs[|prefs| - 1];
      OccurrencesWithout(init, key, labelerDid, k, d);
      OccurrencesStep(init, p, key, labelerDid, k, d);
      assert prefs == init + [p];
    }
  }

  lemma OccurrencesSnoc(prefs: seq<Pref>, p: Pref, k: string, d: Option<string>)
    ensures Occurrences(prefs + [p], k, d) == Occurrences(prefs, k, d) + if Names(p, k, d) then 1 else 0
  {
    assert (prefs + [p])[..|prefs|] == prefs;
  }

  lemma OneEntryAfterReplacing(prefs: seq<Pref>, p: Pref, key: string, labelerDid: Option<string>, k: string, d: Option<string>)
    requires Names(p, key, labelerDid)
    ensures Occurrences(Without(prefs, key, labelerDid) + [p], k, d) ==
      if k == key && d == labelerDid then 1 else Occurrences(prefs, k, d)
  {
    OccurrencesWithout(prefs, key, labelerDid, k, d);
    OccurrencesSnoc(Without(prefs, key, labelerDid), p, k, d);
  }

  /** A write leaves exactly one entry for each label it touches, however many, well-formed
      or not, there were; and the entries for any other label as they were. */
  lemma {:induction false} OneEntryAfterWrite(prefs: seq<Pref>, key: string, value: string, labelerDid: Option<string>, k: string, d: Option<string>)
    ensures Occurrences(SetContentLabelPref(prefs, key, value, labelerDid), k, d) ==
      if Touched(key, labelerDid, k, d) then 1 else Occurrences(prefs, k, d)
  {
    var labelPref := Assigned(prefs, key, labelerDid, value);
    OneEntryAfterReplacing(prefs, labelPref, key, labelerDid, k, d);
    if (labelerDid.None? || labelerDid.value == "") && LegacyOf(key).Some? {
      var written, legacy := Without(prefs, key, labelerDid) + [labelPref], LegacyOf(key).value;
      OneEntryAfterReplacing(written, Assigned(prefs, legacy, None, value), legacy, None, k, d);
    }
  }

  // ---------------------------------------------------------- set, then get

  /** The raw labels are what looking up each label finds, over the defaults. */
  lemma {:induction false} RawLookup(defaults: map<string, string>, prefs: seq<Pref>, k: string)
    requires SchemaChecked(prefs)
    ensures var found, raw := FindLast(prefs, k, None), RawLabels(defaults, prefs);
      if found.Some? && k != PROTO then k in raw && raw[k] == Adjust(found.value.visibility)
      else (k in raw <==> k in defaults) && (k in raw ==> raw[k] == defaults[k])
  {
    if prefs != [] { RawLookup(defaults, prefs[..|prefs| - 1], k); }
  }

  /** How the raw labels change: the touched ones get the new value, except that nothing is
      ever read under `__proto__`. */
  lemma {:induction false} RawAfterWrite(defaults: map<string, string>, prefs: seq<Pref>, key: string, value: string, k: string)
    requires SchemaChecked(prefs)
    ensures var raw, raw' := RawLabels(defaults, prefs), RawLabels(defaults, SetContentLabelPref(prefs, key, value, None));
      if Touched(key, None, k, None) && k != PROTO then k in raw' && raw'[k] == Adjust(value)
      else (k in raw' <==> k in raw) && (k in raw' ==> raw'[k] == raw[k])
  {
    RawLookup(defaults, prefs, k);
    RawLookup(defaults, SetContentLabelPref(prefs, key, value, None), k);
    LookupAfterWrite(prefs, key, value, None, k, None);
  }

  /** Labels as `getPreferences` reports them. */
  ghost predicate Reads(inherited: map<string, string>, defaults: map<string, string>, prefs: seq<Pref>, labels: map<string, string>)
    requires SchemaChecked(prefs)
  {
    Remapped(inherited, RawLabels(defaults, prefs), labels)
  }

  lemma NothingUnderProto(inherited: map<string, string>, defaults: map<string, string>, prefs: seq<Pref>, labels: map<string, string>)
    requires SchemaChecked(prefs) && Reads(inherited, defaults, prefs, labels)
    requires PROTO !in defaults && forall n :: n in inherited ==> inherited[n] != PROTO
    ensures PROTO !in labels
  {
    RawLookup(defaults, prefs, PROTO);
  }

  lemma {:induction false} ShadowedLabelReads(inherited: map<string, string>, defaults: map<string, string>, prefs: seq<Pref>,
                           key: string, value: string, labels: map<string, string>, n: string)
    requires SchemaChecked(prefs) && Inherited(inherited)
    requires Reads(inherited, defaults, SetContentLabelPref(prefs, key, value, None), labels)
    requires n in inherited && inherited[n] == key && n in RawLabels(defaults, prefs)
    ensures key in labels && labels[key] == RawLabels(defaults, prefs)[n]
  {
    RawAfterWrite(defaults, prefs, key, value, n);
    assert Target(inherited, n) == Some(key);
  }

  /** Set, then get, for a key that no label in use turns into: the plain law. */
  lemma {:induction false} UnshadowedLabelReads(inherited: map<string, string>, defaults: map<string, string>, prefs: seq<Pref>,
                             key: string, value: string, labels: map<string, string>)
    requires SchemaChecked(prefs) && Inherited(inherited) && key != PROTO
    requires Reads(inherited, defaults, SetContentLabelPref(prefs, key, value, None), labels)
    requires forall n :: n in inherited && inherited[n] == key ==> n !in RawLabels(defaults, prefs)
    ensures key in labels && labels[key] == Adjust(value)
  {
    var raw := RawLabels(defaults, SetContentLabelPref(prefs, key, value, None));
    forall s | s == key || (s in raw && Target(inherited, s) == Some(key)) ensures s in raw && raw[s] == Adjust(value) {
      SourceOf(inherited, s, key);
      RawAfterWrite(defaults, prefs, key, value, s);
    }
    RemapAgrees(inherited, raw, labels, key, Adjust(value));
  }

  lemma SourceOf(inherited: map<string, string>, s: string, key: string)
    ensures Target(inherited, s) == Some(key) ==> LegacyOf(key) == Some(s) || (s in inherited && inherited[s] == key)
    ensures LegacyOf(key) == Some(s) ==> s != PROTO
  {
  }

  lemma RemapAgrees(inherited: map<string, string>, raw: map<string, string>, labels: map<string, string>, key: string, v: string)
    requires Remapped(inherited, raw, labels) && key in raw && raw[key] == v
    requires forall s :: s in raw && Target(inherited, s) == Some(key) ==> raw[s] == v
    ensures key in labels && labels[key] == v
  {
  }

  /** Set, then get: a global label reads the value just set, except in two families of keys.
      Nothing is ever read under `__proto__`; and the text of an inherited name that is
      itself in use as a label reads like that label. */
  lemma {:induction false} SetThenGetExactly(inherited: map<string, string>, defaults: map<string, string>, prefs: seq<Pref>,
                          key: string, value: string, labels: map<string, string>)
    requires SchemaChecked(prefs) && Inherited(inherited)
    requires PROTO !in defaults && forall n :: n in inherited ==> inherited[n] != PROTO
    requires Reads(inherited, defaults, SetContentLabelPref(prefs, key, value, None), labels)
    ensures key in labels && labels[key] == Adjust(value) <==>
      key != PROTO && forall n :: n in inherited && inherited[n] == key && n in RawLabels(defaults, prefs) ==>
        RawLabels(defaults, prefs)[n] == Adjust(value)
  {
    if key == PROTO {
      NothingUnderProto(inherited, defaults, SetContentLabelPref(prefs, key, value, None), labels);
    } else if n :| n in inherited && inherited[n] == key && n in RawLabels(defaults, prefs) {
      ShadowedLabelReads(inherited, defaults, prefs, key, value, labels, n);
    } else {
      UnshadowedLabelReads(inherited, defaults, prefs, key, value, labels);
    }
  }

  /** A write to one labeler's label changes no global label. */
  lemma ScopedWriteIsInvisible(prefs: seq<Pref>, key: string, value: string, did: string, k: string)
    requires did != ""
    ensures FindLast(SetContentLabelPref(prefs, key, value, Some(did)), k, None) == FindLast(prefs, k, None)
    ensures var found := FindLast(SetContentLabelPref(prefs, key, value, Some(did)), key, Some(did));
      found.Some? && found.value.visibility == value
  {
    LookupAfterWrite(prefs, key, value, Some(did), k, None);
    LookupAfterWrite(prefs, key, value, Some(did), key, Some(did));
  }

  /** A label is reported alike, or not at all, in both. */
  predicate ReadsAlike(before: map<string, string>, after: map<string, string>, l: string) {
    (l in after <==> l in before) && (l in after ==> after[l] == before[l])
  }

  lemma UnmappedReads(inherited: map<string, string>, raw: map<string, string>, labels: map<string, string>, l: string)
    requires Remapped(inherited, raw, labels) && forall s :: s in raw ==> Target(inherited, s) != Some(l)
    ensures ReadsAlike(raw, labels, l)
  {
  }

  /** Nothing else reads differently: neither the key nor its legacy twin, a label reads as it
      did, except that a key which itself turns into that label makes it read the value set. */
  lemma {:induction false} OthersReadTheSame(
      inherited: map<string, string>, defaults: map<string, string>, prefs: seq<Pref>,
      key: string, value: string, before: map<string, string>, after: map<string, string>, l: string)
    requires SchemaChecked(prefs) && Inherited(inherited) && PROTO !in defaults
    requires Reads(inherited, defaults, prefs, before)
    requires Reads(inherited, defaults, SetContentLabelPref(prefs, key, value, None), after)
    requires l != key && LegacyOf(key) != Some(l)
    ensures ReadsAlike(before, after, l) <==>
      key == PROTO || Target(inherited, key) != Some(l) || (l in before && before[l] == Adjust(value))
  {
    var raw, raw' := RawLabels(defaults, prefs), RawLabels(defaults, SetContentLabelPref(prefs, key, value, None));
    if key != PROTO && Target(inherited, key) == Some(l) {
      RawAfterWrite(defaults, prefs, key, value, key);
    } else {
      forall s | s == l || Target(inherited, s) == Some(l) ensures ReadsAlike(raw, raw', s) {
        UntouchedSource(inherited, key, l, s);
        RawAfterWrite(defaults, prefs, key, value, s);
      }
      SameSourcesReadAlike(inherited, raw, raw', before, after, l);
    }
  }

  /** What a label reads from is not touched by a write to a key that does not turn into it. */
  lemma UntouchedSource(inherited: map<string, string>, key: string, l: string, s: string)
    requires Inherited(inherited) && l != key && LegacyOf(key) != Some(l) && (s == l || Target(inherited, s) == Some(l))
    requires key == PROTO || Target(inherited, key) != Some(l)
    ensures !Touched(key, None, s, None) || s == PROTO
  {
  }

  lemma SameSourcesReadAlike(inherited: map<string, string>, raw: map<string, string>, raw': map<string, string>,
                             before: map<string, string>, after: map<string, string>, l: string)
    requires Inherited(inherited) && Remapped(inherited, raw, before) && Remapped(inherited, raw', after)
    requires forall s :: s == l || Target(inherited, s) == Some(l) ==> ReadsAlike(raw, raw', s)
    ensures ReadsAlike(before, after, l)
  {
    if s :| s in raw && Target(inherited, s) == Some(l) {
      assert ReadsAlike(raw, raw', s);
      assert after[l] == raw'[s] == before[l];
    } else {
      UnmappedReads(inherited, raw, before, l);
      UnmappedReads(inherited, raw', after, l);
    }
  }

  /** The plain law on the values: what is set is read, and `show` is read as `ignore`. */
  lemma {:induction false} SetThenGetPlainly(
      inherited: map<string, string>, defaults: map<string, string>, prefs: seq<Pref>,
      key: string, value: string, labels: map<string, string>)
    requires SchemaChecked(prefs) && Inherited(inherited) && key != PROTO
    requires Reads(inherited, defaults, SetContentLabelPref(prefs, key, value, None), labels)
    requires forall n :: n in inherited && inherited[n] == key ==> n !in RawLabels(defaults, prefs)
    ensures key in labels && labels[key] == if value == "show" then "ignore" else value
  {
    UnshadowedLabelReads(inherited, defaults, prefs, key, value, labels);
  }

  /** The labels that have a legacy twin. */
  predicate Twins(key: string, legacy: string) {
    || (key == "graphic-media" && legacy == "gore")
    || (key == "porn" && legacy == "nsfw")
    || (key == "sexual" && legacy == "suggestive")
  }

  /** Twins are written together, and a legacy one that is set alone is read as the other. */
  lemma {:induction false} TwinsAgree(
      inherited: map<string, string>, defaults: map<string, string>, prefs: seq<Pref>,
      key: string, legacy: string, value: string, labels: map<string, string>)
    requires SchemaChecked(prefs) && Twins(key, legacy)
    requires Reads(inherited, defaults, SetContentLabelPref(prefs, legacy, value, None), labels)
    ensures var found := FindLast(SetContentLabelPref(prefs, key, value, None), legacy, None);
      found.Some? && found.value.visibility == value
    ensures key in labels && labels[key] == Adjust(value)
  {
    LookupAfterWrite(prefs, key, value, None, legacy, None);
    SettingSetsTheTarget(inherited, defaults, prefs, legacy, value, labels, key);
  }

  /** The entries that a write does not touch, and everything that is no label entry, in order. */
  function Untouched(prefs: seq<Pref>, key: string, labelerDid: Option<string>): seq<Pref> {
    if prefs == [] then []
    else
      var p := prefs[|prefs| - 1];
      Untouched(prefs[..|prefs| - 1], key, labelerDid) +
      if p.ContentLabel? && p.name.Some? && Touched(key, labelerDid, p.name.value, p.labelerDid) then [] else [p]
  }

  lemma UntouchedSnoc(prefs: seq<Pref>, p: Pref, key: string, labelerDid: Option<string>)
    ensures Untouched(prefs + [p], key, labelerDid) == Untouched(prefs, key, labelerDid) +
      if p.ContentLabel? && p.name.Some? && Touched(key, labelerDid, p.name.value, p.labelerDid) then [] else [p]
  {
    assert (prefs + [p])[..|prefs|] == prefs;
  }

  lemma {:induction false} UntouchedWithout(prefs: seq<Pref>, key: string, labelerDid: Option<string>, k: string, d: Option<string>)
    requires Touched(key, labelerDid, k, d)
    ensures Untouched(Without(prefs, k, d), key, labelerDid) == Untouched(prefs, key, labelerDid)
  {
    if prefs != [] {
      var init, p := prefs[..|prefs| - 1], prefs[|prefs| - 1];
      UntouchedWithout(init, key, labelerDid, k, d);
      if Names(p, k, d) {
        assert Without(prefs, k, d) == Without(init, k, d);
        assert Untouched(init, key, labelerDid) + [] == Untouched(init, key, labelerDid);
      } else {
        UntouchedSnoc(Without(init, k, d), p, key, labelerDid);
      }
    }
  }

  lemma UntouchedReplacing(prefs: seq<Pref>, p: Pref, key: string, labelerDid: Option<string>, k: string, d: Option<string>)
    requires Touched(key, labelerDid, k, d) && Names(p, k, d)
    ensures Untouched(Without(prefs, k, d) + [p], key, labelerDid) == Untouched(prefs, key, labelerDid)
  {
    UntouchedWithout(prefs, key, labelerDid, k, d);
    UntouchedSnoc(Without(prefs, k, d), p, key, labelerDid);
    assert Untouched(prefs, key, labelerDid) + [] == Untouched(prefs, key, labelerDid);
  }

  /** A write leaves every other preference as it was, and in its order. */
  lemma {:induction false} WriteKeepsTheRest(prefs: seq<Pref>, key: string, value: string, labelerDid: Option<string>)
    ensures Untouched(SetContentLabelPref(prefs, key, value, labelerDid), key, labelerDid) == Untouched(prefs, key, labelerDid)
  {
    var labelPref := Assigned(prefs, key, labelerDid, value);
    UntouchedReplacing(prefs, labelPref, key, labelerDid, key, labelerDid);
    if (labelerDid.None? || labelerDid.value == "") && LegacyOf(key).Some? {
      var written, legacy := Without(prefs, key, labelerDid) + [labelPref], LegacyOf(key).value;
      UntouchedReplacing(written, Assigned(prefs, legacy, None, value), key, labelerDid, legacy, None);
    }
  }

  // -------------------------------------------------------- the laws do fail

  /** Setting a label that turns into another one, as legacy labels and inherited names do,
      also sets what that other one reads. */
  lemma {:induction false} SettingSetsTheTarget(
      inherited: map<string, string>, defaults: map<string, string>, prefs: seq<Pref>,
      key: string, value: string, after: map<string, string>, l: string)
    requires SchemaChecked(prefs) && key != PROTO && Target(inherited, key) == Some(l)
    requires Reads(inherited, defaults, SetContentLabelPref(prefs, key, value, None), after)
    ensures l in after && after[l] == Adjust(value)
  {
    RawAfterWrite(defaults, prefs, key, value, key);
  }

  /** A value that is set and then reads differently: once a label under an inherited name is
      set, the label that is that member's text reads the same, whatever is set for it. */
  lemma {:induction false} SettingAShadowedLabelFails(
      inherited: map<string, string>, defaults: map<string, string>, prefs: seq<Pref>,
      n: string, hidden: string, value: string, labels: map<string, string>)
    requires SchemaChecked(prefs) && Inherited(inherited) && n in inherited && n != PROTO
    requires Reads(inherited, defaults,
      SetContentLabelPref(SetContentLabelPref(prefs, n, hidden, None), inherited[n], value, None), labels)
    ensures inherited[n] in labels && labels[inherited[n]] == Adjust(hidden)
  {
    RawAfterWrite(defaults, prefs, n, hidden, n);
    ShadowedLabelReads(inherited, defaults, SetContentLabelPref(prefs, n, hidden, None), inherited[n], value, labels, n);
  }

  const TO_STRING := "toString"
  const TO_STRING_TEXT := "function toString() { [native code] }"
  const OBJECT: map<string, string> := map[TO_STRING := TO_STRING_TEXT]

  /** `toString` is such a name, and `gore` turns into another label in any case. */
  lemma ObjectInherits()
    ensures Inherited(OBJECT) && TO_STRING != PROTO
    ensures Target(OBJECT, TO_STRING) == Some(TO_STRING_TEXT)
    ensures Target(OBJECT, "gore") == Some("graphic-media")
  {
    assert |TO_STRING| == 8 && |TO_STRING_TEXT| == 37;
  }
}
