/**
 The `.env` update of `init_config` (autodoc_ai/cli.py): the settings built
 from the two answers, the in-place merge of those settings into the lines of
 an existing file, and the text that is written back.
 */
module EnvConfig {
  import opened Wrappers
  import opened Text

  /** One entry of `keys_to_update`. */
  datatype Setting = Setting(key: string, value: string)

  const ApiKeyName: string := "GROQ_API_KEY"
  const ModelKeyName: string := "GROQ_MODEL_NAME"
  const DefaultModel: string := "llama-3.3-70b-versatile"

  /** `f'{key}="{value}"\n'`. */
  function EnvLine(s: Setting): (r: string)
    ensures StartsWith(r, s.key + "=") && |r| > 0 && r[|r| - 1] == '\n'
  {
    var r := s.key + "=\"" + s.value + "\"\n";
    assert r[..|s.key + "="|] == s.key + "=";
    r
  }

  /** `line.strip().startswith(f"{key}=")`. */
  predicate SetsKey(line: string, key: string) {
    StartsWith(Strip(line), key + "=")
  }

  /** The test that decides whether a line sets a key; `init_config` uses
      `SetsKey`. */
  type KeyTest = (string, string) -> bool

  /** Under `sets`, no line sets two of the keys of `ps`. */
  ghost predicate OneKeyPerLine(sets: KeyTest, ps: seq<Setting>) {
    forall line, s, t :: s in ps && t in ps && sets(line, s.key) && sets(line, t.key) ==> s.key == t.key
  }

  /** A dictionary has one entry per key. */
  predicate DistinctKeys(ps: seq<Setting>) {
    forall a, b :: 0 <= a < b < |ps| ==> ps[a].key != ps[b].key
  }

  /** No `KEY=` is a prefix of another key's `KEY=`, so a line sets at most
      one of the keys. */
  ghost predicate PrefixFree(ps: seq<Setting>) {
    forall s, t :: s in ps && t in ps && s.key != t.key ==> !StartsWith(t.key + "=", s.key + "=")
  }

  // ---------------------------------------------------------------------
  // `keys_to_update`

  /** The settings `init_config` collects from the two (unstripped) answers:
      the API key when one was given, then the model name, which falls back
      to the default when the answer is blank. The model entry is always
      present, so the "configuration cancelled" branch is never taken. */
  function KeysToUpdate(apiAnswer: string, modelAnswer: string): (r: seq<Setting>)
    ensures |r| >= 1 && r[|r| - 1].key == ModelKeyName && r[|r| - 1].value != ""
    ensures r[|r| - 1].value == (if Strip(modelAnswer) != "" then Strip(modelAnswer) else DefaultModel)
    ensures |r| == 2 <==> Strip(apiAnswer) != ""
    ensures |r| == 2 ==> r[0] == Setting(ApiKeyName, Strip(apiAnswer))
    ensures |r| <= 2
  {
    var api := Strip(apiAnswer);
    var model := if Strip(modelAnswer) != "" then Strip(modelAnswer) else DefaultModel;
    assert |DefaultModel| > 0;
    (if api != "" then [Setting(ApiKeyName, api)] else []) + (if model != "" then [Setting(ModelKeyName, model)] else [])
  }

  /** The settings form a dictionary, and no line can set both keys. */
  lemma {:induction false} KeysToUpdateDistinct(apiAnswer: string, modelAnswer: string)
    ensures var r := KeysToUpdate(apiAnswer, modelAnswer);
            DistinctKeys(r) && PrefixFree(r)
  {
    KeyNamesClash();
    TwoKeys(KeysToUpdate(apiAnswer, modelAnswer), ApiKeyName, ModelKeyName);
  }

  /** An optional first key and a last key, neither `KEY=` a prefix of the
      other. */
  lemma {:induction false} TwoKeys(r: seq<Setting>, a: string, m: string)
    requires 1 <= |r| <= 2 && r[|r| - 1].key == m && (|r| == 2 ==> r[0].key == a)
    requires !StartsWith(m + "=", a + "=") && !StartsWith(a + "=", m + "=") && a != m
    ensures DistinctKeys(r) && PrefixFree(r)
  {
    if |r| == 2 {
      assert forall s :: s in r ==> s == r[0] || s == r[1];
    } else {
      assert forall s :: s in r ==> s == r[0];
    }
  }

  /** `GROQ_API_KEY=` and `GROQ_MODEL_NAME=` differ at their sixth character. */
  lemma {:induction false} KeyNamesClash()
    ensures !StartsWith(ModelKeyName + "=", ApiKeyName + "=")
    ensures !StartsWith(ApiKeyName + "=", ModelKeyName + "=")
    ensures ApiKeyName != ModelKeyName
  {
    var a, m := ApiKeyName + "=", ModelKeyName + "=";
    assert a[5] == 'A' && m[5] == 'M';
    assert |a| < |m| && m[..|a|][5] == m[5];
  }

  // ---------------------------------------------------------------------
  // The merge as functions

  /** The inner loop over a snapshot of the pending settings for one line:
      each setting whose key the line sets replaces the line. */
  function Rewrite(sets: KeyTest, line: string, cur: string, ps: seq<Setting>): string
    decreases |ps|
  {
    if ps == [] then cur
    else Rewrite(sets, line, if sets(line, ps[0].key) then EnvLine(ps[0]) else cur, ps[1..])
  }

  /** The settings still pending after one line: those whose key it does not
      set, in their order. */
  function Unmatched(sets: KeyTest, line: string, ps: seq<Setting>): (r: seq<Setting>)
    ensures |r| <= |ps|
  {
    if ps == [] then []
    else Unmatched(sets, line, ps[..|ps| - 1]) + (if sets(line, ps[|ps| - 1].key) then [] else [ps[|ps| - 1]])
  }

  /** `del keys_to_update[key]`. */
  function Remove(ps: seq<Setting>, key: string): (r: seq<Setting>)
  {
    if ps == [] then []
    else Remove(ps[..|ps| - 1], key) + (if ps[|ps| - 1].key == key then [] else [ps[|ps| - 1]])
  }

  /** The existing lines after the update loop. */
  function Rewritten(sets: KeyTest, lines: seq<string>, ps: seq<Setting>): (r: seq<string>)
    ensures |r| == |lines|
  {
    if lines == [] then []
    else [Rewrite(sets, lines[0], lines[0], ps)] + Rewritten(sets, lines[1..], Unmatched(sets, lines[0], ps))
  }

  /** The settings no line matched, in their order. */
  function Leftover(sets: KeyTest, lines: seq<string>, ps: seq<Setting>): seq<Setting> {
    if lines == [] then ps else Leftover(sets, lines[1..], Unmatched(sets, lines[0], ps))
  }

  /** One `KEY="value"` line per setting. */
  function Appended(ps: seq<Setting>): (r: seq<string>)
    ensures |r| == |ps| && forall k :: 0 <= k < |ps| ==> r[k] == EnvLine(ps[k])
  {
    seq(|ps|, k requires 0 <= k < |ps| => EnvLine(ps[k]))
  }

  /** The list `init_config` writes back. */
  function Merged(sets: KeyTest, lines: seq<string>, ps: seq<Setting>): seq<string> {
    Rewritten(sets, lines, ps) + Appended(Leftover(sets, lines, ps))
  }

  // ---------------------------------------------------------------------
  // Reference definitions

  /** The first line that sets `key`. */
  function FirstSetter(sets: KeyTest, lines: seq<string>, key: string): (r: Option<nat>)
    ensures r.Some? ==> r.value < |lines| && sets(lines[r.value], key)
                        && forall i :: 0 <= i < r.value ==> !sets(lines[i], key)
    ensures r.None? ==> forall i :: 0 <= i < |lines| ==> !sets(lines[i], key)
  {
    if lines == [] then None
    else if sets(lines[0], key) then Some(0)
    else match FirstSetter(sets, lines[1..], key)
      case None => None
      case Some(j) => Some(j + 1)
  }

  /** The settings whose key no line sets, in their order. */
  function Unset(sets: KeyTest, lines: seq<string>, ps: seq<Setting>): (r: seq<Setting>)
    ensures |r| <= |ps|
  {
    if ps == [] then []
    else Unset(sets, lines, ps[..|ps| - 1]) + (if FirstSetter(sets, lines, ps[|ps| - 1].key).None? then [ps[|ps| - 1]] else [])
  }

  // ---------------------------------------------------------------------
  // The merge loop

  /** The outer loop has handled `lines[..i]`: `r` holds their new text and
      the rest unchanged, and `pending` is what `keys_to_update` holds. */
  ghost predicate LinesMerged(sets: KeyTest, lines: seq<string>, keys: seq<Setting>, r: seq<string>, pending: seq<Setting>, i: nat) {
    && |r| == |lines| && i <= |lines|
    && r[i..] == lines[i..]
    && DistinctKeys(pending)
    && r[..i] + Rewritten(sets, lines[i..], pending) == Rewritten(sets, lines, keys)
    && Leftover(sets, lines[i..], pending) == Leftover(sets, lines, keys)
  }

  /** The inner loop has handled `snapshot[..j]` for `line`. */
  ghost predicate SettingsTried(sets: KeyTest, line: string, snapshot: seq<Setting>, cur: string, pending: seq<Setting>, j: nat) {
    && j <= |snapshot|
    && Rewrite(sets, line, cur, snapshot[j..]) == Rewrite(sets, line, line, snapshot)
    && pending == Unmatched(sets, line, snapshot[..j]) + snapshot[j..]
  }

  /** The update loop, then the append loop, of `init_config` on the lines
      read from an existing `.env`. */
  method MergeEnv(sets: KeyTest, lines: seq<string>, keys: seq<Setting>) returns (r: seq<string>)
    requires DistinctKeys(keys)
    ensures r == Merged(sets, lines, keys)
  {
    r := lines;
    var pending := keys;
    var i := 0;
    while i < |r|
      invariant LinesMerged(sets, lines, keys, r, pending, i)
    {
      ghost var before, snapshot := r, pending;
      r, pending := UpdateLine(sets, r, i, pending);
      LineStep(sets, lines, keys, before, r, snapshot, pending, i);
      i := i + 1;
    }
    assert r == Rewritten(sets, lines, keys) && pending == Leftover(sets, lines, keys) by {
      assert r[..i] == r && lines[i..] == [];
    }
    r := AppendSettings(r, pending);
  }

  /** The inner loop: line `i` is tried against every setting still pending;
      each match overwrites the line and drops the setting. */
  method UpdateLine(sets: KeyTest, lines: seq<string>, i: nat, keys: seq<Setting>) returns (r: seq<string>, pending: seq<Setting>)
    requires i < |lines| && DistinctKeys(keys)
    ensures |r| == |lines| && forall k :: 0 <= k < |r| && k != i ==> r[k] == lines[k]
    ensures SettingsTried(sets, lines[i], keys, r[i], pending, |keys|)
  {
    r, pending := lines, keys;
    var line := r[i];
    assert SettingsTried(sets, line, keys, r[i], pending, 0) by {
      assert keys[0..] == keys && keys[..0] == [];
    }
    var j := 0;
    while j < |keys|
      invariant |r| == |lines| && forall k :: 0 <= k < |r| && k != i ==> r[k] == lines[k]
      invariant SettingsTried(sets, line, keys, r[i], pending, j)
    {
      var s := keys[j];
      ghost var cur, waiting := r[i], pending;
      if sets(line, s.key) {
        OnlyLineSet(r, lines, i, EnvLine(s));
        r := r[i := EnvLine(s)];
        pending := Remove(pending, s.key);
      }
      j := j + 1;
      TryStep(sets, line, keys, cur, waiting, j - 1, j, r[i], pending);
    }
  }

  lemma {:induction false} OnlyLineSet(r: seq<string>, lines: seq<string>, i: nat, x: string)
    requires i < |r| == |lines| && forall k :: 0 <= k < |r| && k != i ==> r[k] == lines[k]
    ensures var r' := r[i := x];
            && |r'| == |lines| && r'[i] == x && forall k :: 0 <= k < |r'| && k != i ==> r'[k] == lines[k]
  {
  }

  /** The append loop: every setting no line mentioned becomes a new line. */
  method AppendSettings(lines: seq<string>, pending: seq<Setting>) returns (r: seq<string>)
    ensures r == lines + Appended(pending)
  {
    r := lines;
    var k := 0;
    while k < |pending|
      invariant k <= |pending| && r == lines + Appended(pending[..k])
    {
      assert Appended(pending[..k + 1]) == Appended(pending[..k]) + [EnvLine(pending[k])];
      r := r + [EnvLine(pending[k])];
      k := k + 1;
    }
    assert pending[..k] == pending;
  }

  /** One turn of the inner loop keeps `SettingsTried`. */
  lemma {:induction false} TryStep(sets: KeyTest, line: string, snapshot: seq<Setting>, cur: string, pending: seq<Setting>, j: nat,
                j': nat, cur': string, pending': seq<Setting>)
    requires SettingsTried(sets, line, snapshot, cur, pending, j) && j < |snapshot| && DistinctKeys(snapshot)
    requires var s := snapshot[j];
             && j' == j + 1
             && cur' == (if sets(line, s.key) then EnvLine(s) else cur)
             && pending' == (if sets(line, s.key) then Remove(pending, s.key) else pending)
    ensures SettingsTried(sets, line, snapshot, cur', pending', j')
  {
    RewriteStep(sets, line, snapshot, cur, j);
    PendingStep(sets, line, snapshot, pending, j);
  }

  lemma {:induction false} RewriteStep(sets: KeyTest, line: string, snapshot: seq<Setting>, cur: string, j: nat)
    requires j < |snapshot|
    ensures var s := snapshot[j];
            Rewrite(sets, line, cur, snapshot[j..])
            == Rewrite(sets, line, if sets(line, s.key) then EnvLine(s) else cur, snapshot[j + 1..])
  {
    assert snapshot[j..][1..] == snapshot[j + 1..];
  }

  lemma {:induction false} PendingStep(sets: KeyTest, line: string, snapshot: seq<Setting>, pending: seq<Setting>, j: nat)
    requires j < |snapshot| && DistinctKeys(snapshot)
    requires pending == Unmatched(sets, line, snapshot[..j]) + snapshot[j..]
    ensures var s, next := snapshot[j], Unmatched(sets, line, snapshot[..j + 1]) + snapshot[j + 1..];
            && (sets(line, s.key) ==> Remove(pending, s.key) == next)
            && (!sets(line, s.key) ==> pending == next)
  {
    if sets(line, snapshot[j].key) {
      PendingRemoved(sets, line, snapshot, j);
    } else {
      PendingKept(sets, line, snapshot, j);
    }
  }

  /** A setting the line sets leaves the pending list. */
  lemma {:induction false} PendingRemoved(sets: KeyTest, line: string, snapshot: seq<Setting>, j: nat)
    requires j < |snapshot| && DistinctKeys(snapshot) && sets(line, snapshot[j].key)
    ensures var s := snapshot[j];
            Remove(Unmatched(sets, line, snapshot[..j]) + snapshot[j..], s.key)
            == Unmatched(sets, line, snapshot[..j + 1]) + snapshot[j + 1..]
  {
    var s, done, after := snapshot[j], Unmatched(sets, line, snapshot[..j]), snapshot[j + 1..];
    assert snapshot[j..] == [s] + after;
    DoneLacksKey(sets, line, snapshot, j, done);
    AfterLacksKey(snapshot, j, after);
    RemoveUnique(done, s, after);
    assert snapshot[..j + 1][..j] == snapshot[..j];
    assert Unmatched(sets, line, snapshot[..j + 1]) == done;
  }

  /** No setting left pending before index `j` has the key at `j`. */
  lemma {:induction false} DoneLacksKey(sets: KeyTest, line: string, snapshot: seq<Setting>, j: nat, done: seq<Setting>)
    requires j < |snapshot| && DistinctKeys(snapshot) && done == Unmatched(sets, line, snapshot[..j])
    ensures forall i :: 0 <= i < |done| ==> done[i].key != snapshot[j].key
  {
    KeyOnce(snapshot, j);
    UnmatchedMembers(sets, line, snapshot[..j]);
    forall i | 0 <= i < |done|
      ensures done[i].key != snapshot[j].key
    {
      assert done[i] in done;
    }
  }

  /** No setting after index `j` has the key at `j`. */
  lemma {:induction false} AfterLacksKey(ps: seq<Setting>, j: nat, after: seq<Setting>)
    requires j < |ps| && DistinctKeys(ps) && after == ps[j + 1..]
    ensures forall i :: 0 <= i < |after| ==> after[i].key != ps[j].key
  {
    forall i | 0 <= i < |after|
      ensures after[i].key != ps[j].key
    {
      assert after[i] == ps[j + 1 + i];
    }
  }

  /** Removing the key of the one setting that has it. */
  lemma {:induction false} RemoveUnique(done: seq<Setting>, s: Setting, after: seq<Setting>)
    requires forall i :: 0 <= i < |done| ==> done[i].key != s.key
    requires forall i :: 0 <= i < |after| ==> after[i].key != s.key
    ensures Remove(done + ([s] + after), s.key) == done + after
  {
    RemoveAbsent(done, s.key);
    RemoveAbsent(after, s.key);
    RemoveConcat(done, [s] + after, s.key);
    RemoveConcat([s], after, s.key);
    assert Remove([s], s.key) == [] by {
      assert [s][..0] == [];
    }
  }

  /** A setting the line does not set stays pending, in its place. */
  lemma {:induction false} PendingKept(sets: KeyTest, line: string, snapshot: seq<Setting>, j: nat)
    requires j < |snapshot| && !sets(line, snapshot[j].key)
    ensures Unmatched(sets, line, snapshot[..j]) + snapshot[j..]
            == Unmatched(sets, line, snapshot[..j + 1]) + snapshot[j + 1..]
  {
    var s, done, after := snapshot[j], Unmatched(sets, line, snapshot[..j]), snapshot[j + 1..];
    assert snapshot[j..] == [s] + after;
    assert snapshot[..j + 1][..j] == snapshot[..j];
    assert Unmatched(sets, line, snapshot[..j + 1]) == done + [s];
  }

  /** In a dictionary, the key at `j` is the key of no other entry. */
  lemma {:induction false} KeyOnce(ps: seq<Setting>, j: nat)
    requires DistinctKeys(ps) && j < |ps|
    ensures forall t :: t in ps[..j] ==> t.key != ps[j].key
  {
    forall t | t in ps[..j]
      ensures t.key != ps[j].key
    {
      var a :| 0 <= a < j && ps[..j][a] == t;
    }
  }

  /** The end of one turn of the outer loop keeps `LinesMerged`. */
  lemma {:induction false} LineStep(sets: KeyTest, lines: seq<string>, keys: seq<Setting>, before: seq<string>, r: seq<string>,
                 snapshot: seq<Setting>, pending: seq<Setting>, i: nat)
    requires LinesMerged(sets, lines, keys, before, snapshot, i) && i < |lines|
    requires |r| == |before| && forall k :: 0 <= k < |r| && k != i ==> r[k] == before[k]
    requires SettingsTried(sets, before[i], snapshot, r[i], pending, |snapshot|)
    ensures LinesMerged(sets, lines, keys, r, pending, i + 1)
  {
    var line := lines[i];
    assert before[i] == line by { assert before[i..][0] == lines[i..][0]; }
    assert snapshot[|snapshot|..] == [] && snapshot[..|snapshot|] == snapshot;
    assert Rewrite(sets, line, line, snapshot) == r[i] && pending == Unmatched(sets, line, snapshot);
    var tail := Rewritten(sets, lines[i + 1..], pending);
    RewrittenStep(sets, lines, snapshot, i);
    assert Rewritten(sets, lines[i..], snapshot) == [r[i]] + tail;
    assert r[..i + 1] == before[..i] + [r[i]];
    Regroup(before[..i], r[i], tail);
    LeftoverStep(sets, lines, snapshot, i);
    assert r[i + 1..] == lines[i + 1..] by {
      assert r[i + 1..] == before[i + 1..];
      assert before[i + 1..] == before[i..][1..];
    }
    UnmatchedDistinct(sets, line, snapshot);
  }

  lemma {:induction false} Regroup(a: seq<string>, x: string, b: seq<string>)
    ensures (a + [x]) + b == a + ([x] + b)
  {
  }

  lemma {:induction false} RewrittenStep(sets: KeyTest, lines: seq<string>, ps: seq<Setting>, i: nat)
    requires i < |lines|
    ensures Rewritten(sets, lines[i..], ps)
            == [Rewrite(sets, lines[i], lines[i], ps)] + Rewritten(sets, lines[i + 1..], Unmatched(sets, lines[i], ps))
  {
    assert lines[i..][1..] == lines[i + 1..];
  }

  lemma {:induction false} LeftoverStep(sets: KeyTest, lines: seq<string>, ps: seq<Setting>, i: nat)
    requires i < |lines|
    ensures Leftover(sets, lines[i..], ps) == Leftover(sets, lines[i + 1..], Unmatched(sets, lines[i], ps))
  {
    assert lines[i..][1..] == lines[i + 1..];
  }

  lemma {:induction false} RemoveConcat(a: seq<Setting>, b: seq<Setting>, key: string)
    ensures Remove(a + b, key) == Remove(a, key) + Remove(b, key)
    decreases |b|
  {
    if b != [] {
      var c := b[..|b| - 1];
      assert (a + b)[..|a + b| - 1] == a + c;
      RemoveConcat(a, c, key);
    } else {
      assert a + b == a;
    }
  }

  lemma {:induction false} RemoveAbsent(ps: seq<Setting>, key: string)
    requires forall i :: 0 <= i < |ps| ==> ps[i].key != key
    ensures Remove(ps, key) == ps
  {
    if ps != [] {
      var init := ps[..|ps| - 1];
      assert ps == init + [ps[|ps| - 1]];
      RemoveAbsent(init, key);
    }
  }

  lemma {:induction false} UnmatchedDistinct(sets: KeyTest, line: string, ps: seq<Setting>)
    requires DistinctKeys(ps)
    ensures DistinctKeys(Unmatched(sets, line, ps))
  {
    if ps != [] {
      var init := ps[..|ps| - 1];
      UnmatchedDistinct(sets, line, init);
      UnmatchedMembers(sets, line, init);
      var u := Unmatched(sets, line, init);
      forall t | t in u
        ensures t.key != ps[|ps| - 1].key
      {
        var a :| 0 <= a < |init| && init[a] == t;
      }
    }
  }

  // ---------------------------------------------------------------------
  // What the merge does

  /** A setting rewrites the first line that sets its key, to `KEY="value"`,
      when no line sets two keys. */
  lemma {:induction false} FirstSetterRewritten(sets: KeyTest, lines: seq<string>, ps: seq<Setting>, s: Setting, i: nat)
    requires DistinctKeys(ps) && OneKeyPerLine(sets, ps) && s in ps && FirstSetter(sets, lines, s.key) == Some(i)
    ensures i < |lines| && Rewritten(sets, lines, ps)[i] == EnvLine(s)
  {
    if i == 0 {
      RewriteOnly(sets, lines[0], lines[0], ps, s);
    } else {
      UnmatchedDistinct(sets, lines[0], ps);
      UnmatchedMembers(sets, lines[0], ps);
      FirstSetterRewritten(sets, lines[1..], Unmatched(sets, lines[0], ps), s, i - 1);
    }
  }

  /** A line that is no setting's first setter is written back unchanged. */
  lemma {:induction false} OtherLinesKept(sets: KeyTest, lines: seq<string>, ps: seq<Setting>, i: nat)
    requires i < |lines|
    requires forall s :: s in ps ==> FirstSetter(sets, lines, s.key) != Some(i)
    ensures Rewritten(sets, lines, ps)[i] == lines[i]
  {
    if i == 0 {
      RewriteNone(sets, lines[0], lines[0], ps);
    } else {
      var u := Unmatched(sets, lines[0], ps);
      UnmatchedMembers(sets, lines[0], ps);
      forall s | s in u
        ensures FirstSetter(sets, lines[1..], s.key) != Some(i - 1)
      {
      }
      OtherLinesKept(sets, lines[1..], u, i - 1);
    }
  }

  /** The settings pending after a line are those whose key it does not set. */
  lemma {:induction false} UnmatchedMembers(sets: KeyTest, line: string, ps: seq<Setting>)
    ensures forall s :: s in Unmatched(sets, line, ps) <==> s in ps && !sets(line, s.key)
  {
    if ps != [] {
      UnmatchedMembers(sets, line, ps[..|ps| - 1]);
      assert ps == ps[..|ps| - 1] + [ps[|ps| - 1]];
    }
  }

  /** `Unset` keeps the settings whose key no line sets. */
  lemma {:induction false} UnsetMembers(sets: KeyTest, lines: seq<string>, ps: seq<Setting>)
    ensures forall s :: s in Unset(sets, lines, ps) <==> s in ps && FirstSetter(sets, lines, s.key).None?
  {
    if ps != [] {
      UnsetMembers(sets, lines, ps[..|ps| - 1]);
      assert ps == ps[..|ps| - 1] + [ps[|ps| - 1]];
    }
  }

  /** The settings appended are exactly those no line sets, in their order. */
  lemma {:induction false} LeftoverUnset(sets: KeyTest, lines: seq<string>, ps: seq<Setting>)
    ensures Leftover(sets, lines, ps) == Unset(sets, lines, ps)
  {
    if lines == [] {
      UnsetNone(sets, ps);
    } else {
      LeftoverUnset(sets, lines[1..], Unmatched(sets, lines[0], ps));
      UnsetStep(sets, lines, ps);
    }
  }

  /** The written list: the existing lines, rewritten where a setting sets
      them first, then one line per unset setting; its length is the old
      length plus the number of unset settings. */
  lemma {:induction false} MergedShape(sets: KeyTest, lines: seq<string>, ps: seq<Setting>)
    ensures var m, u := Merged(sets, lines, ps), Unset(sets, lines, ps);
            && |m| == |lines| + |u|
            && m[..|lines|] == Rewritten(sets, lines, ps)
            && forall k :: 0 <= k < |u| ==> m[|lines| + k] == EnvLine(u[k])
  {
    LeftoverUnset(sets, lines, ps);
    var w, a := Rewritten(sets, lines, ps), Appended(Unset(sets, lines, ps));
    assert Merged(sets, lines, ps) == w + a;
    assert (w + a)[..|lines|] == w;
    assert forall k :: 0 <= k < |a| ==> (w + a)[|lines| + k] == a[k];
  }

  /** With the settings `init_config` collects and its key test, each
      setting rewrites the first line that sets its key. */
  lemma {:induction false} KeysMerge(apiAnswer: string, modelAnswer: string, lines: seq<string>, s: Setting, i: nat)
    requires s in KeysToUpdate(apiAnswer, modelAnswer) && FirstSetter(SetsKey, lines, s.key) == Some(i)
    ensures i < |lines| && Merged(SetsKey, lines, KeysToUpdate(apiAnswer, modelAnswer))[i] == EnvLine(s)
  {
    var keys := KeysToUpdate(apiAnswer, modelAnswer);
    KeysToUpdateDistinct(apiAnswer, modelAnswer);
    PrefixFreeOneKey(keys);
    FirstSetterRewritten(SetsKey, lines, keys, s, i);
  }

  /** A prefix-free dictionary has no line that sets two of its keys. */
  lemma {:induction false} PrefixFreeOneKey(ps: seq<Setting>)
    requires PrefixFree(ps)
    ensures OneKeyPerLine(SetsKey, ps)
  {
    forall line, s, t | s in ps && t in ps && SetsKey(line, s.key) && SetsKey(line, t.key)
      ensures s.key == t.key
    {
      SameLine(line, s, t);
    }
  }

  // ---------------------------------------------------------------------
  // Helpers

  lemma {:induction false} RewriteNone(sets: KeyTest, line: string, cur: string, ps: seq<Setting>)
    requires forall t :: t in ps ==> !sets(line, t.key)
    ensures Rewrite(sets, line, cur, ps) == cur
    decreases |ps|
  {
    if ps != [] {
      RewriteNone(sets, line, cur, ps[1..]);
    }
  }

  lemma {:induction false} RewriteOnly(sets: KeyTest, line: string, cur: string, ps: seq<Setting>, s: Setting)
    requires DistinctKeys(ps) && OneKeyPerLine(sets, ps) && s in ps && sets(line, s.key)
    ensures Rewrite(sets, line, cur, ps) == EnvLine(s)
    decreases |ps|
  {
    var rest := ps[1..];
    assert DistinctKeys(rest);
    if ps[0] == s {
      forall t | t in rest
        ensures !sets(line, t.key)
      {
        var b :| 0 <= b < |rest| && rest[b] == t;
        assert ps[b + 1] == t;
      }
      RewriteNone(sets, line, EnvLine(s), rest);
    } else {
      assert s in rest;
      assert ps[0].key != s.key by {
        var b :| 0 <= b < |ps| && ps[b] == s;
        assert b != 0;
      }
      RewriteOnly(sets, line, cur, rest, s);
    }
  }

  /** Two keys that the same line sets are `PrefixFree`-related. */
  lemma {:induction false} SameLine(line: string, s: Setting, t: Setting)
    requires SetsKey(line, s.key) && SetsKey(line, t.key)
    ensures StartsWith(t.key + "=", s.key + "=") || StartsWith(s.key + "=", t.key + "=")
  {
    var x, y, l := s.key + "=", t.key + "=", Strip(line);
    if |x| <= |y| {
      assert y[..|x|] == l[..|y|][..|x|];
    } else {
      assert x[..|y|] == l[..|x|][..|y|];
    }
  }

  lemma {:induction false} UnsetNone(sets: KeyTest, ps: seq<Setting>)
    ensures Unset(sets, [], ps) == ps
  {
    if ps != [] {
      UnsetNone(sets, ps[..|ps| - 1]);
      assert ps == ps[..|ps| - 1] + [ps[|ps| - 1]];
    }
  }

  /** The settings left by the first line and then unset by the rest are
      those unset by all lines. */
  lemma {:induction false} UnsetStep(sets: KeyTest, lines: seq<string>, ps: seq<Setting>)
    requires lines != []
    ensures Unset(sets, lines[1..], Unmatched(sets, lines[0], ps)) == Unset(sets, lines, ps)
  {
    if ps != [] {
      var init, x := ps[..|ps| - 1], ps[|ps| - 1];
      UnsetStep(sets, lines, init);
      var u := Unmatched(sets, lines[0], init);
      if sets(lines[0], x.key) {
        assert Unmatched(sets, lines[0], ps) == u;
      } else {
        assert Unmatched(sets, lines[0], ps) == u + [x];
        assert (u + [x])[..|u + [x]| - 1] == u;
      }
    }
  }

  // ---------------------------------------------------------------------
  // The text written back

  /** `f.writelines(lines)`: the lines back to back, with nothing between. */
  function Written(ls: seq<string>): string
    decreases |ls|
  {
    if ls == [] then "" else ls[0] + Written(ls[1..])
  }

  /** The line ends with its newline. */
  predicate Terminated(line: string) {
    |line| > 0 && line[|line| - 1] == '\n'
  }

  lemma {:induction false} WrittenConcat(a: seq<string>, b: seq<string>)
    ensures Written(a + b) == Written(a) + Written(b)
    decreases |a|
  {
    if a != [] {
      assert (a + b)[1..] == a[1..] + b;
      WrittenConcat(a[1..], b);
    } else {
      assert a + b == b;
    }
  }

  /** What is written ends with the last character of the last line. */
  lemma {:induction false} WrittenLastChar(ls: seq<string>)
    requires ls != [] && |ls[|ls| - 1]| > 0
    ensures var w, l := Written(ls), ls[|ls| - 1];
            |w| > 0 && w[|w| - 1] == l[|l| - 1]
    decreases |ls|
  {
    if |ls| > 1 {
      WrittenLastChar(ls[1..]);
    } else {
      assert Written(ls) == ls[0] + "";
    }
  }

  /** Line `n` of `m` begins a line of the written text: it follows a
      newline or begins the text. */
  predicate StartsLine(m: seq<string>, n: nat)
    requires n < |m|
  {
    var w, o := Written(m), |Written(m[..n])|;
    && o + |m[n]| <= |w| && w[o..o + |m[n]|] == m[n]
    && (o == 0 || w[o - 1] == '\n')
  }

  /** Line `n` is written where the lines before it end, so it begins a line
      exactly when they are empty or end with a newline. */
  lemma {:induction false} StartsLineAfter(m: seq<string>, n: nat)
    requires n < |m|
    ensures var before := Written(m[..n]);
            StartsLine(m, n) <==> before == "" || Terminated(before)
  {
    assert m == m[..n] + ([m[n]] + m[n + 1..]);
    WrittenConcat(m[..n], [m[n]] + m[n + 1..]);
    assert Written([m[n]] + m[n + 1..]) == m[n] + Written(m[n + 1..]);
  }

  /** A line after one that does not end with a newline continues it. */
  lemma {:induction false} GluedLine(m: seq<string>, n: nat)
    requires 0 < n < |m| && |m[n - 1]| > 0 && !Terminated(m[n - 1])
    ensures !StartsLine(m, n)
  {
    WrittenLastChar(m[..n]);
    StartsLineAfter(m, n);
  }

  /** A line after one that ends with a newline begins a line. */
  lemma {:induction false} OwnLine(m: seq<string>, n: nat)
    requires n < |m| && (n == 0 || Terminated(m[n - 1]))
    ensures StartsLine(m, n)
  {
    if n > 0 {
      WrittenLastChar(m[..n]);
    }
    StartsLineAfter(m, n);
  }

  /** As written: when the last line of an existing `.env` has no newline
      and sets none of the keys, the first added setting is written straight
      after it, on the same line. */
  lemma {:induction false} AddedSettingGlued(sets: KeyTest, lines: seq<string>, ps: seq<Setting>)
    requires lines != [] && |lines[|lines| - 1]| > 0 && !Terminated(lines[|lines| - 1])
    requires forall s :: s in ps ==> FirstSetter(sets, lines, s.key) != Some(|lines| - 1)
    requires Unset(sets, lines, ps) != []
    ensures var m, n := Merged(sets, lines, ps), |lines|;
            && n < |m| && m[n] == EnvLine(Unset(sets, lines, ps)[0])
            && !StartsLine(m, n)
  {
    var m, n := Merged(sets, lines, ps), |lines|;
    MergedShape(sets, lines, ps);
    OtherLinesKept(sets, lines, ps, n - 1);
    assert m[n - 1] == m[..n][n - 1] == lines[n - 1];
    GluedLine(m, n);
  }

  /** The rewritten lines with a newline given to the last one if it has
      none. */
  function EndLast(ls: seq<string>): (r: seq<string>)
    ensures |r| == |ls| && (r == [] || Terminated(r[|r| - 1]))
    ensures forall i :: 0 <= i < |ls| - 1 ==> r[i] == ls[i]
  {
    if ls == [] || Terminated(ls[|ls| - 1]) then ls else ls[..|ls| - 1] + [ls[|ls| - 1] + "\n"]
  }

  /** The evidently intended merge: the last existing line is given its
      newline before any setting is added. */
  function MergedFixed(sets: KeyTest, lines: seq<string>, ps: seq<Setting>): seq<string> {
    EndLast(Rewritten(sets, lines, ps)) + Appended(Leftover(sets, lines, ps))
  }

  /** Lines added after newline-terminated lines each begin a line. */
  lemma {:induction false} AddedAfterEnded(e: seq<string>, a: seq<string>, n: nat, k: nat)
    requires n == |e| && k < |a| && (e == [] || Terminated(e[|e| - 1]))
    requires forall i :: 0 <= i < |a| ==> Terminated(a[i])
    ensures (e + a)[n + k] == a[k] && StartsLine(e + a, n + k)
  {
    var m := e + a;
    if k > 0 {
      assert m[n + k - 1] == a[k - 1];
    } else if e != [] {
      assert m[n - 1] == e[n - 1];
    }
    OwnLine(m, n + k);
  }

  /** With the fix, every added setting is written on a line of its own. */
  lemma {:induction false} AddedOnOwnLine(sets: KeyTest, lines: seq<string>, ps: seq<Setting>, k: nat)
    requires k < |Unset(sets, lines, ps)|
    ensures var m, n := MergedFixed(sets, lines, ps), |lines|;
            && n + k < |m| && m[n + k] == EnvLine(Unset(sets, lines, ps)[k])
            && StartsLine(m, n + k)
  {
    var u := Unset(sets, lines, ps);
    LeftoverUnset(sets, lines, ps);
    var e, a := EndLast(Rewritten(sets, lines, ps)), Appended(u);
    assert MergedFixed(sets, lines, ps) == e + a;
    AddedAfterEnded(e, a, |lines|, k);
  }
}
