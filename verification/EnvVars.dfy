/** Merging managed environment variables into a service's own, and pushing the result back. */
module EnvVars {
  import opened OrderedMaps

  datatype EnvVar = EnvVar(key: string, value: string)
  type VarMap = OrderedMap<string, string>

  function SetAll(m: VarMap, vars: seq<EnvVar>): VarMap {
    if vars == [] then m
    else SetAll(m, vars[..|vars| - 1]).Set(vars[|vars| - 1].key, vars[|vars| - 1].value)
  }

  function Entries(m: VarMap): seq<EnvVar>
    requires forall k :: k in m.keys ==> k in m.values
  {
    seq(|m.keys|, i requires 0 <= i < |m.keys| => EnvVar(m.keys[i], m.values[m.keys[i]]))
  }

  /** The list read as a map. */
  function Collect(vars: seq<EnvVar>): VarMap { SetAll(Empty(), vars) }

  function Merge(existing: seq<EnvVar>, desired: seq<EnvVar>): seq<EnvVar> {
    SetAllValid(Empty(), existing + desired);
    Entries(Collect(existing + desired))
  }

  lemma {:induction false} SetAllValid(m: VarMap, vars: seq<EnvVar>)
    requires m.Valid()
    ensures SetAll(m, vars).Valid()
  {
    if vars != [] {
      SetAllValid(m, vars[..|vars| - 1]);
    }
  }

  lemma {:induction false} SetAllConcat(m: VarMap, a: seq<EnvVar>, b: seq<EnvVar>)
    ensures SetAll(m, a + b) == SetAll(SetAll(m, a), b)
  {
    if b == [] {
      assert a + b == a;
    } else {
      assert (a + b)[..|a + b| - 1] == a + b[..|b| - 1];
      SetAllConcat(m, a, b[..|b| - 1]);
    }
  }

  method MergeEnvVars(existing: seq<EnvVar>, desired: seq<EnvVar>) returns (r: seq<EnvVar>)
    ensures r == Merge(existing, desired)
  {
    var merged: VarMap := Empty();
    for i := 0 to |existing|
      invariant merged == Collect(existing[..i])
    {
      assert existing[..i + 1][..i] == existing[..i];
      merged := merged.Set(existing[i].key, existing[i].value);
    }
    assert existing[..|existing|] == existing;
    for i := 0 to |desired|
      invariant merged == SetAll(Collect(existing), desired[..i])
    {
      assert desired[..i + 1][..i] == desired[..i];
      merged := merged.Set(desired[i].key, desired[i].value);
    }
    assert desired[..|desired|] == desired;
    SetAllConcat(Empty(), existing, desired);
    SetAllValid(Empty(), existing + desired);
    r := Entries(merged);
  }

  // ----- What a merged list says

  ghost predicate Mentions(vars: seq<EnvVar>, key: string) {
    exists i :: 0 <= i < |vars| && vars[i].key == key
  }

  /** The value a list gives a key: that of its last mention. */
  function LastValue(vars: seq<EnvVar>, key: string): string
    requires Mentions(vars, key)
  {
    if vars[|vars| - 1].key == key then vars[|vars| - 1].value else LastValue(vars[..|vars| - 1], key)
  }

  /** Some mention of `a` comes before every mention of `b`. */
  ghost predicate MentionedFirst(vars: seq<EnvVar>, a: string, b: string) {
    exists p :: 0 <= p < |vars| && vars[p].key == a && !Mentions(vars[..p + 1], b)
  }

  lemma {:induction false} MentionsLast(vars: seq<EnvVar>, last: EnvVar, key: string)
    ensures Mentions(vars + [last], key) <==> Mentions(vars, key) || last.key == key
  {
    var all := vars + [last];
    if Mentions(vars, key) {
      var i :| 0 <= i < |vars| && vars[i].key == key;
      assert all[i].key == key;
    }
    assert all[|vars|] == last;
  }

  lemma {:induction false} SetAllValue(m: VarMap, vars: seq<EnvVar>, key: string)
    ensures key in SetAll(m, vars).values <==> key in m.values || Mentions(vars, key)
    ensures Mentions(vars, key) ==> SetAll(m, vars).values[key] == LastValue(vars, key)
    ensures !Mentions(vars, key) && key in m.values ==> SetAll(m, vars).values[key] == m.values[key]
  {
    if vars != [] {
      var n := |vars| - 1;
      SetAllValue(m, vars[..n], key);
      MentionsLast(vars[..n], vars[n], key);
      assert vars == vars[..n] + [vars[n]];
    }
  }

  lemma {:induction false} CollectedOrder(vars: seq<EnvVar>, i: nat, j: nat)
    requires i < j < |Collect(vars).keys|
    ensures MentionedFirst(vars, Collect(vars).keys[i], Collect(vars).keys[j])
  {
    var n := |vars| - 1;
    var before, last := Collect(vars[..n]), vars[n];
    SetAllValid(Empty(), vars[..n]);
    var a, b := Collect(vars).keys[i], Collect(vars).keys[j];
    if j < |before.keys| {
      CollectedOrder(vars[..n], i, j);
      var p :| 0 <= p < n && vars[..n][p].key == a && !Mentions(vars[..n][..p + 1], b);
      assert vars[..n][..p + 1] == vars[..p + 1];
    } else {
      assert b == last.key && b !in before.values && a in before.keys;
      SetAllValue(Empty(), vars[..n], a);
      SetAllValue(Empty(), vars[..n], b);
      var p :| 0 <= p < n && vars[..n][p].key == a;
      assert forall q :: 0 <= q < p + 1 ==> vars[..p + 1][q] == vars[..n][q];
    }
  }

  /** `e` is a desired variable, or an existing one that nothing desired overrides. */
  ghost predicate Override(existing: seq<EnvVar>, desired: seq<EnvVar>, e: EnvVar) {
    if Mentions(desired, e.key) then e.value == LastValue(desired, e.key)
    else Mentions(existing, e.key) && e.value == LastValue(existing, e.key)
  }

  /** Merging lists every variable of either side once: with its desired value if it has one, else
      with the value it had, in the order in which the two lists first name them. */
  lemma MergeIsOverride(existing: seq<EnvVar>, desired: seq<EnvVar>)
    ensures var r := Merge(existing, desired);
      (forall i, j :: 0 <= i < j < |r| ==>
         r[i].key != r[j].key && MentionedFirst(existing + desired, r[i].key, r[j].key))
      && (forall e :: e in r <==> Override(existing, desired, e))
  {
    var all := existing + desired;
    var m, r := Collect(all), Merge(existing, desired);
    SetAllValid(Empty(), all);
    forall i, j | 0 <= i < j < |r|
      ensures r[i].key != r[j].key && MentionedFirst(all, r[i].key, r[j].key)
    {
      CollectedOrder(all, i, j);
    }
    forall e: EnvVar
      ensures e in r <==> Override(existing, desired, e)
    {
      SetAllValue(Empty(), all, e.key);
      LastValueOfConcat(existing, desired, e.key);
      EntriesAre(m, e);
    }
  }

  lemma EntriesAre(m: VarMap, e: EnvVar)
    requires m.Valid()
    ensures e in Entries(m) <==> e.key in m.values && m.values[e.key] == e.value
  {
    if e.key in m.values {
      var i :| 0 <= i < |m.keys| && m.keys[i] == e.key;
      assert Entries(m)[i].key == e.key;
    }
  }

  lemma {:induction false} LastValueOfConcat(a: seq<EnvVar>, b: seq<EnvVar>, key: string)
    ensures Mentions(a + b, key) <==> Mentions(a, key) || Mentions(b, key)
    ensures Mentions(a + b, key) ==>
      LastValue(a + b, key) == if Mentions(b, key) then LastValue(b, key) else LastValue(a, key)
  {
    if b == [] {
      assert a + b == a;
    } else {
      var n := |b| - 1;
      LastValueOfConcat(a, b[..n], key);
      MentionsLast(a + b[..n], b[n], key);
      MentionsLast(b[..n], b[n], key);
      assert a + b == a + b[..n] + [b[n]] && b == b[..n] + [b[n]];
      assert (a + b)[..|a| + n] == a + b[..n];
    }
  }

  // ----- Merging again

  /** The map as it was when only its first `n` keys were in. */
  function FirstKeys(m: VarMap, n: nat): VarMap
    requires n <= |m.keys|
  {
    OrderedMap(m.keys[..n], map k | k in m.values && k in m.keys[..n] :: m.values[k])
  }

  lemma FirstKeysNext(m: VarMap, n: nat)
    requires m.Valid() && n < |m.keys|
    ensures FirstKeys(m, n).Set(m.keys[n], m.values[m.keys[n]]) == FirstKeys(m, n + 1)
  {
    assert m.keys[..n + 1] == m.keys[..n] + [m.keys[n]];
    assert m.keys[n] !in m.keys[..n];
  }

  lemma {:induction false} CollectEntries(m: VarMap, n: nat)
    requires m.Valid() && n <= |m.keys|
    ensures Collect(Entries(m)[..n]) == FirstKeys(m, n)
  {
    if n > 0 {
      CollectEntries(m, n - 1);
      FirstKeysNext(m, n - 1);
      assert Entries(m)[..n][..n - 1] == Entries(m)[..n - 1];
    }
  }

  lemma CollectUndoesEntries(m: VarMap)
    requires m.Valid()
    ensures Collect(Entries(m)) == m
  {
    CollectEntries(m, |m.keys|);
    assert Entries(m)[..|m.keys|] == Entries(m) && m.keys[..|m.keys|] == m.keys;
    assert FirstKeys(m, |m.keys|).values == m.values;
  }

  lemma CollectContinues(vars: seq<EnvVar>, more: seq<EnvVar>)
    requires Collect(vars).Valid()
    ensures Collect(Entries(Collect(vars)) + more) == Collect(vars + more)
  {
    CollectUndoesEntries(Collect(vars));
    SetAllConcat(Empty(), Entries(Collect(vars)), more);
    SetAllConcat(Empty(), vars, more);
  }

  /** Merging twice is merging the two lists of desired values at once, entry for entry. */
  lemma MergeTwice(existing: seq<EnvVar>, a: seq<EnvVar>, b: seq<EnvVar>)
    ensures Merge(Merge(existing, a), b) == Merge(existing, a + b)
  {
    SetAllValid(Empty(), existing + a);
    CollectContinues(existing + a, b);
    assert existing + (a + b) == (existing + a) + b;
  }

  /** Setting keys a map already has moves none of them. */
  lemma {:induction false} SettingKnownKeys(m: VarMap, vars: seq<EnvVar>)
    requires forall i :: 0 <= i < |vars| ==> vars[i].key in m.values
    ensures SetAll(m, vars).keys == m.keys && SetAll(m, vars).values.Keys == m.values.Keys
  {
    if vars != [] {
      SettingKnownKeys(m, vars[..|vars| - 1]);
    }
  }

  /** Repeating a sync is harmless: the second one writes back exactly what the first one wrote. */
  lemma MergeIsIdempotent(existing: seq<EnvVar>, desired: seq<EnvVar>)
    ensures Merge(Merge(existing, desired), desired) == Merge(existing, desired)
  {
    var m := Collect(existing + desired);
    SetAllValid(Empty(), existing + desired);
    CollectUndoesEntries(m);
    SetAllConcat(Empty(), Entries(m), desired);
    forall i | 0 <= i < |desired|
      ensures desired[i].key in m.values
    {
      LastValueOfConcat(existing, desired, desired[i].key);
      SetAllValue(Empty(), existing + desired, desired[i].key);
    }
    SettingKnownKeys(m, desired);
    forall k | k in m.values
      ensures SetAll(m, desired).values[k] == m.values[k]
    {
      SetAllValue(m, desired, k);
      SetAllValue(Empty(), existing + desired, k);
      LastValueOfConcat(existing, desired, k);
    }
    assert SetAll(m, desired).values == m.values;
  }

  // ----- The remote service

  /** One hosted service; its variables are only ever replaced as a whole. */
  class RenderService {
    var env: seq<EnvVar>

    constructor (env: seq<EnvVar>)
      ensures this.env == env
    {
      this.env := env;
    }

    /** Reads, merges and writes back; a failed read or write leaves the service as it was. */
    method SyncManagedEnvVars(desired: seq<EnvVar>, readOk: bool, writeOk: bool) returns (ok: bool)
      modifies this
      ensures ok == (readOk && writeOk)
      ensures env == if ok then Merge(old(env), desired) else old(env)
    {
      if !readOk {
        return false;
      }
      var merged := MergeEnvVars(env, desired);
      if !writeOk {
        return false;
      }
      env := merged;
      return true;
    }
  }
}
