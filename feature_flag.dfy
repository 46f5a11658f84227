/**
 * The feature-flag manager (`main.FeatureFlagManager`): an ordered list of
 * named flags with add, remove, lookup and enable/disable.
 *
 * Two operations do not do what they evidently intend. `Remove` splices the
 * slice it is ranging over, so a flag right after a removed one is skipped
 * and a later match can slice past the end (`RemoveAsWritten`); `Enable` and
 * `Disable` change a copy of the flag, never the list. The class's `Remove`
 * is the corrected loop; `Enable`/`Disable` are modelled as written, next to
 * the corrected `EnableInPlace`/`DisableInPlace`.
 */
module FeatureFlags {
  import opened Common

  datatype FeatureFlag = FeatureFlag(name: string, description: string, enabled: bool)

  /** The position of the first flag called `name`, or -1 when there is none. */
  function FirstIndex(flags: seq<FeatureFlag>, name: string): (r: int)
    ensures -1 <= r < |flags|
    ensures r >= 0 ==> flags[r].name == name && forall j :: 0 <= j < r ==> flags[j].name != name
    ensures r < 0 ==> forall j :: 0 <= j < |flags| ==> flags[j].name != name
  {
    if flags == [] then -1
    else if flags[0].name == name then 0
    else
      var r := FirstIndex(flags[1..], name);
      if r < 0 then -1 else r + 1
  }

  /** What `Get(name)` points at: (a copy of) the first flag called `name`, or nil. */
  function FirstNamed(flags: seq<FeatureFlag>, name: string): (r: Option<FeatureFlag>)
    ensures r.None? <==> forall j :: 0 <= j < |flags| ==> flags[j].name != name
    ensures r.Some? ==> r.value.name == name && r.value in flags
    ensures r.Some? ==> exists i :: 0 <= i < |flags| && flags[i] == r.value && forall j :: 0 <= j < i ==> flags[j].name != name
  {
    var i := FirstIndex(flags, name);
    if i < 0 then None else Some(flags[i])
  }

  /** `IsEnabled(name)`: the first flag called `name` exists and is enabled. */
  predicate IsEnabledIn(flags: seq<FeatureFlag>, name: string) {
    FirstNamed(flags, name).Some? && FirstNamed(flags, name).value.enabled
  }

  /** The flags not called `name`, in their original order. */
  function Without(flags: seq<FeatureFlag>, name: string): seq<FeatureFlag>
  {
    if flags == [] then []
    else (if flags[0].name == name then [] else [flags[0]]) + Without(flags[1..], name)
  }

  /** Exactly the flags not called `name` remain, and the list does not grow. */
  lemma {:induction false} WithoutMembers(flags: seq<FeatureFlag>, name: string)
    ensures forall f :: f in Without(flags, name) <==> f in flags && f.name != name
    ensures |Without(flags, name)| <= |flags|
    decreases |flags|
  {
    if flags != [] {
      WithoutMembers(flags[1..], name);
      assert forall f :: f in flags <==> f == flags[0] || f in flags[1..];
    }
  }

  lemma {:induction false} WithoutAppend(a: seq<FeatureFlag>, b: seq<FeatureFlag>, name: string)
    ensures Without(a + b, name) == Without(a, name) + Without(b, name)
    decreases |a|
  {
    if a == [] {
      assert a + b == b;
    } else {
      assert (a + b)[0] == a[0] && (a + b)[1..] == a[1..] + b;
      WithoutAppend(a[1..], b, name);
    }
  }

  /** Removing an absent name leaves the list as it is. */
  lemma {:induction false} WithoutAbsent(flags: seq<FeatureFlag>, name: string)
    requires forall j :: 0 <= j < |flags| ==> flags[j].name != name
    ensures Without(flags, name) == flags
    decreases |flags|
  {
    if flags != [] {
      WithoutAbsent(flags[1..], name);
      assert flags == [flags[0]] + flags[1..];
    }
  }

  /** One more flag seen by a removal loop: it is kept exactly when its name differs. */
  lemma WithoutStep(flags: seq<FeatureFlag>, k: int, name: string)
    requires 0 <= k < |flags|
    ensures Without(flags[..k + 1], name) == Without(flags[..k], name) + (if flags[k].name == name then [] else [flags[k]])
  {
    assert flags[..k + 1] == flags[..k] + [flags[k]];
    WithoutAppend(flags[..k], [flags[k]], name);
    assert [flags[k]][1..] == [];
  }

  /** Removing the only flag called `name` deletes exactly that flag and keeps the others in order. */
  lemma WithoutSingle(flags: seq<FeatureFlag>, name: string, m: int)
    requires 0 <= m < |flags| && flags[m].name == name
    requires forall j :: 0 <= j < |flags| && j != m ==> flags[j].name != name
    ensures Without(flags, name) == flags[..m] + flags[m + 1..]
  {
    var front, back := flags[..m], flags[m + 1..];
    WithoutStep(flags, m, name);
    assert flags[..m + 1] + back == flags;
    WithoutAppend(flags[..m + 1], back, name);
    WithoutAbsent(front, name);
    WithoutAbsent(back, name);
  }

  /** `Enable`/`Disable` as intended: set the first flag called `name`; no flag called `name`, no change. */
  function SetEnabled(flags: seq<FeatureFlag>, name: string, enabled: bool): seq<FeatureFlag> {
    var i := FirstIndex(flags, name);
    if i < 0 then flags else flags[i := flags[i].(enabled := enabled)]
  }

  /**
   * Setting a flag keeps the length, order, names and descriptions of all
   * flags, changes only the first flag called `name`, and makes `IsEnabled`
   * answer `enabled` for every name present.
   */
  lemma SetEnabledEffect(flags: seq<FeatureFlag>, name: string, enabled: bool)
    ensures |SetEnabled(flags, name, enabled)| == |flags|
    ensures forall i :: 0 <= i < |flags| ==>
      SetEnabled(flags, name, enabled)[i].name == flags[i].name &&
      SetEnabled(flags, name, enabled)[i].description == flags[i].description
    ensures forall i :: 0 <= i < |flags| && i != FirstIndex(flags, name) ==> SetEnabled(flags, name, enabled)[i] == flags[i]
    ensures FirstNamed(flags, name).Some? ==> IsEnabledIn(SetEnabled(flags, name, enabled), name) == enabled
    ensures FirstNamed(flags, name).None? ==> SetEnabled(flags, name, enabled) == flags
  {
    var r := SetEnabled(flags, name, enabled);
    var i := FirstIndex(flags, name);
    var k := FirstIndex(r, name);
    assert forall j :: 0 <= j < |flags| ==> r[j].name == flags[j].name;
    if i >= 0 {
      assert r[i].name == name;
    }
  }

  /**
   * `Remove` as written: `range` walks the original backing array `arr`
   * (its length fixed) while each removal shifts the tail of the current
   * slice, of length `len`, one place left in that same array. Reading
   * `arr[i]` after a shift sees the next flag; `FeatureFlags[i+1:]` with
   * `i + 1 > len` panics (`None`).
   */
  function RemoveLoop(arr: seq<FeatureFlag>, len: nat, i: nat, name: string): (r: Option<seq<FeatureFlag>>)
    requires len <= |arr|
    ensures r.Some? ==> |r.value| <= len && forall f :: f in r.value ==> f in arr[..len]
    decreases |arr| - i
  {
    if i >= |arr| then Some(arr[..len])
    else if arr[i].name != name then RemoveLoop(arr, len, i + 1, name)
    else if i + 1 > len then None
    else
      var shifted := arr[..i] + arr[i + 1..len] + arr[len - 1..];
      assert shifted[..len - 1] == arr[..i] + arr[i + 1..len];
      RemoveLoop(shifted, len - 1, i + 1, name)
  }

  /**
   * The written `Remove` on the whole list: it only ever drops flags, and
   * without a flag called `name` it leaves the list as it was (so it can
   * panic only when some flag is called `name`).
   */
  function RemoveAsWritten(flags: seq<FeatureFlag>, name: string): (r: Option<seq<FeatureFlag>>)
    ensures r.Some? ==> |r.value| <= |flags| && forall f :: f in r.value ==> f in flags
    ensures (forall j :: 0 <= j < |flags| ==> flags[j].name != name) ==> r == Some(flags)
  {
    assert flags[..|flags|] == flags;
    if forall j :: 0 <= j < |flags| ==> flags[j].name != name then
      RemoveLoopNoMoreMatches(flags, |flags|, 0, name);
      RemoveLoop(flags, |flags|, 0, name)
    else
      RemoveLoop(flags, |flags|, 0, name)
  }

  /** Once no flag from position `i` on matches, the written loop ends with the current slice. */
  lemma {:induction false} RemoveLoopNoMoreMatches(arr: seq<FeatureFlag>, len: nat, i: nat, name: string)
    requires len <= |arr|
    requires forall j :: i <= j < |arr| ==> arr[j].name != name
    ensures RemoveLoop(arr, len, i, name) == Some(arr[..len])
    decreases |arr| - i
  {
    if i < |arr| {
      RemoveLoopNoMoreMatches(arr, len, i + 1, name);
    }
  }

  /** With exactly one match, at `m`, the written loop removes it correctly. */
  lemma {:induction false} RemoveLoopSingleMatch(flags: seq<FeatureFlag>, i: nat, name: string, m: nat)
    requires i <= m < |flags| && flags[m].name == name
    requires forall j :: 0 <= j < |flags| && j != m ==> flags[j].name != name
    ensures RemoveLoop(flags, |flags|, i, name) == Some(flags[..m] + flags[m + 1..])
    decreases m - i
  {
    if i < m {
      RemoveLoopSingleMatch(flags, i + 1, name, m);
    } else {
      var arr := flags[..m] + flags[m + 1..] + flags[|flags| - 1..];
      assert flags[m + 1..|flags|] == flags[m + 1..];
      assert RemoveLoop(flags, |flags|, m, name) == RemoveLoop(arr, |flags| - 1, m + 1, name);
      forall j | m + 1 <= j < |arr|
        ensures arr[j].name != name
      {
        if j < |flags| - 1 {
          assert arr[j] == flags[j + 1];
        } else {
          assert arr[j] == flags[|flags| - 1];
        }
      }
      RemoveLoopNoMoreMatches(arr, |flags| - 1, m + 1, name);
      assert arr[..|flags| - 1] == flags[..m] + flags[m + 1..];
    }
  }

  /** When at most one flag is called `name`, the written `Remove` does what was intended. */
  lemma RemoveAsWrittenAgreesOnUniqueNames(flags: seq<FeatureFlag>, name: string)
    requires forall i, j :: 0 <= i < j < |flags| && flags[i].name == name ==> flags[j].name != name
    ensures RemoveAsWritten(flags, name) == Some(Without(flags, name))
  {
    var m := FirstIndex(flags, name);
    if m < 0 {
      RemoveLoopNoMoreMatches(flags, |flags|, 0, name);
      WithoutAbsent(flags, name);
      assert flags[..|flags|] == flags;
    } else {
      RemoveLoopSingleMatch(flags, 0, name, m);
      WithoutSingle(flags, name, m);
    }
  }

  /**
   * Two adjacent duplicates: the written `Remove("a")` on `[a, a, b]` keeps
   * the second `a`; on `[a, a]` it slices past the end and panics.
   */
  lemma RemoveAsWrittenMissesAdjacentDuplicates()
    ensures var a, b := FeatureFlag("a", "", true), FeatureFlag("b", "", true);
      RemoveAsWritten([a, a, b], "a") == Some([a, b]) && Without([a, a, b], "a") == [b]
    ensures var a := FeatureFlag("a", "", true);
      RemoveAsWritten([a, a], "a").None?
  {
    var a, b := FeatureFlag("a", "", true), FeatureFlag("b", "", true);
    var arr1 := [a, a, b][..0] + [a, a, b][1..3] + [a, a, b][2..];
    assert arr1 == [a, b, b];
    assert RemoveLoop([a, b, b], 2, 1, "a") == RemoveLoop([a, b, b], 2, 2, "a") == RemoveLoop([a, b, b], 2, 3, "a");
    assert [a, b, b][..2] == [a, b];
    assert Without([a, a, b], "a") == Without([a, b], "a") == Without([b], "a");
    var arr2 := [a, a][..0] + [a, a][1..2] + [a, a][1..];
    assert arr2 == [a, a];
  }

  class FeatureFlagManager {
    var featureFlags: seq<FeatureFlag>

    /** `NewFeatureFlagManager()`: no flags. */
    constructor ()
      ensures featureFlags == []
    {
      featureFlags := [];
    }

    /** Appends one flag at the end; the earlier flags stay in place. */
    method Add(name: string, description: string, enabled: bool)
      modifies this
      ensures featureFlags == old(featureFlags) + [FeatureFlag(name, description, enabled)]
    {
      featureFlags := featureFlags + [FeatureFlag(name, description, enabled)];
    }

    /**
     * `Remove(name)`, corrected: after splicing out a match the loop looks
     * at the same position again, so every flag called `name` goes.
     */
    method Remove(name: string)
      modifies this
      ensures featureFlags == Without(old(featureFlags), name)
    {
      ghost var k := 0;
      var i := 0;
      while i < |featureFlags|
        invariant 0 <= i <= |featureFlags| && 0 <= k <= |old(featureFlags)|
        invariant featureFlags[..i] == Without(old(featureFlags)[..k], name)
        invariant featureFlags[i..] == old(featureFlags)[k..]
        decreases |featureFlags| - i
      {
        ghost var o := old(featureFlags);
        assert featureFlags[i] == featureFlags[i..][0] == o[k];
        assert featureFlags[i + 1..] == featureFlags[i..][1..] == o[k + 1..];
        WithoutStep(o, k, name);
        if featureFlags[i].name == name {
          featureFlags := featureFlags[..i] + featureFlags[i + 1..];
          assert featureFlags[..i] == Without(o[..k + 1], name);
          assert featureFlags[i..] == o[k + 1..];
        } else {
          assert featureFlags[..i + 1] == featureFlags[..i] + [o[k]];
          i := i + 1;
        }
        k := k + 1;
      }
      assert old(featureFlags)[..k] == old(featureFlags);
    }

    /** `Get(name)`: a copy of the first flag called `name`, or nil. */
    method Get(name: string) returns (r: Option<FeatureFlag>)
      ensures r == FirstNamed(featureFlags, name)
    {
      var i := 0;
      while i < |featureFlags|
        invariant 0 <= i <= |featureFlags|
        invariant forall j :: 0 <= j < i ==> featureFlags[j].name != name
      {
        if featureFlags[i].name == name {
          return Some(featureFlags[i]);
        }
        i := i + 1;
      }
      r := None;
    }

    method GetFeatureFlags() returns (flags: seq<FeatureFlag>)
      ensures flags == featureFlags
    {
      flags := featureFlags;
    }

    method IsEnabled(name: string) returns (enabled: bool)
      ensures enabled == IsEnabledIn(featureFlags, name)
    {
      var flag := Get(name);
      enabled := flag.Some? && flag.value.enabled;
    }

    /**
     * `Enable(name)` as written: it sets `Enabled` on the copy `Get` returned
     * (returned here) and leaves the list untouched.
     */
    method Enable(name: string) returns (copy: Option<FeatureFlag>)
      ensures copy.Some? <==> FirstNamed(featureFlags, name).Some?
      ensures copy.Some? ==> copy == Some(FirstNamed(featureFlags, name).value.(enabled := true))
    {
      copy := Get(name);
      if copy.Some? {
        copy := Some(copy.value.(enabled := true));
      }
    }

    /** `Disable(name)` as written: like `Enable`, it changes only the copy. */
    method Disable(name: string) returns (copy: Option<FeatureFlag>)
      ensures copy.Some? <==> FirstNamed(featureFlags, name).Some?
      ensures copy.Some? ==> copy == Some(FirstNamed(featureFlags, name).value.(enabled := false))
    {
      copy := Get(name);
      if copy.Some? {
        copy := Some(copy.value.(enabled := false));
      }
    }

    /** `Enable(name)` as intended: the first flag called `name` becomes enabled in the list. */
    method EnableInPlace(name: string)
      modifies this
      ensures featureFlags == SetEnabled(old(featureFlags), name, true)
    {
      SetFirst(name, true);
    }

    /** `Disable(name)` as intended. */
    method DisableInPlace(name: string)
      modifies this
      ensures featureFlags == SetEnabled(old(featureFlags), name, false)
    {
      SetFirst(name, false);
    }

    method SetFirst(name: string, enabled: bool)
      modifies this
      ensures featureFlags == SetEnabled(old(featureFlags), name, enabled)
    {
      var i := 0;
      while i < |featureFlags|
        invariant 0 <= i <= |featureFlags|
        invariant forall j :: 0 <= j < i ==> featureFlags[j].name != name
      {
        if featureFlags[i].name == name {
          featureFlags := featureFlags[i := featureFlags[i].(enabled := enabled)];
          return;
        }
        i := i + 1;
      }
    }
  }

  /**
   * Enabling a disabled flag through the written `Enable` leaves it
   * disabled; through `EnableInPlace` it becomes enabled.
   */
  method EnableHasNoEffect() returns (asWritten: bool, corrected: bool)
    ensures !asWritten && corrected
  {
    var manager := new FeatureFlagManager();
    manager.Add("beta", "", false);
    var _ := manager.Enable("beta");
    asWritten := manager.IsEnabled("beta");
    ghost var before := manager.featureFlags;
    manager.EnableInPlace("beta");
    SetEnabledEffect(before, "beta", true);
    corrected := manager.IsEnabled("beta");
  }
}
