/**
 * Enum wrappers (iphone/hooks/generate/enum.js): the template data of an
 * enum keeps its name, framework and file name, and each value's key loses
 * the enum's name as a prefix (`UIControlStateDisabled` of
 * `UIControlState` becomes `Disabled`).
 */
module GenEnum {
  import opened Wrappers
  import opened Json
  import opened Strs

  /** An object's members, in the order `Object.keys` lists them. */
  type Members = seq<(string, Json)>

  /** An enum of the metabase: its framework, its file name and its values. */
  datatype EnumObj = EnumObj(framework: Option<Json>, filename: Option<Json>, values: Members)

  /** The template data of an enum file. */
  datatype EnumEntry = EnumEntry(name: string, values: map<string, Json>, framework: Option<Json>, filename: Option<Json>)

  /** `valueName.slice(name.length)`: the key without its first `|name|` characters. */
  function Shorten(valueName: string, name: string): (r: string)
    ensures |name| <= |valueName| ==> valueName == valueName[..|name|] + r
    ensures |name| > |valueName| ==> r == []
  {
    if |name| <= |valueName| then valueName[|name|..] else []
  }

  /** The values after the first `|m|` keys are shortened and stored in order. */
  function ShortenedValues(name: string, m: Members): map<string, Json>
    decreases |m|
  {
    if m == [] then map[]
    else ShortenedValues(name, m[..|m| - 1])[Shorten(m[|m| - 1].0, name) := m[|m| - 1].1]
  }

  /** `makeEnum`: the shortened keys are stored one after the other, a later key overwriting an earlier one. */
  method MakeEnum(name: string, enumObj: EnumObj) returns (r: EnumEntry)
    ensures r == EnumEntry(name, ShortenedValues(name, enumObj.values), enumObj.framework, enumObj.filename)
  {
    var values: map<string, Json> := map[];
    var m := enumObj.values;
    var i := 0;
    while i < |m|
      invariant 0 <= i <= |m|
      invariant values == ShortenedValues(name, m[..i])
    {
      assert m[..i + 1][..i] == m[..i];
      values := values[Shorten(m[i].0, name) := m[i].1];
      i := i + 1;
    }
    assert m[..i] == m;
    r := EnumEntry(name, values, enumObj.framework, enumObj.filename);
  }

  /** The keys of the result are exactly the shortened keys of the input. */
  lemma {:induction false} ShortenedKeys(name: string, m: Members, k: string)
    decreases |m|
    ensures k in ShortenedValues(name, m) <==> exists i :: 0 <= i < |m| && Shorten(m[i].0, name) == k
  {
    if m != [] {
      var init := m[..|m| - 1];
      ShortenedKeys(name, init, k);
      if exists i :: 0 <= i < |init| && Shorten(init[i].0, name) == k {
        var i :| 0 <= i < |init| && Shorten(init[i].0, name) == k;
        assert m[i] == init[i];
      }
      if exists i :: 0 <= i < |m| && Shorten(m[i].0, name) == k {
        var i :| 0 <= i < |m| && Shorten(m[i].0, name) == k;
        if i < |init| {
          assert init[i] == m[i];
        }
      }
    }
  }

  /**
   * When two keys shorten to the same key, the later one's value is kept:
   * every stored value is that of the last input key that shortens to it.
   */
  lemma {:induction false} ShortenedLastWins(name: string, m: Members, i: nat)
    requires i < |m|
    requires forall j :: i < j < |m| ==> Shorten(m[j].0, name) != Shorten(m[i].0, name)
    decreases |m|
    ensures Shorten(m[i].0, name) in ShortenedValues(name, m)
    ensures ShortenedValues(name, m)[Shorten(m[i].0, name)] == m[i].1
  {
    if i < |m| - 1 {
      var init := m[..|m| - 1];
      assert init[i] == m[i];
      forall j | i < j < |init|
        ensures Shorten(init[j].0, name) != Shorten(init[i].0, name)
      {
        assert init[j] == m[j];
      }
      ShortenedLastWins(name, init, i);
    }
  }

  /** The enum's name followed by the shortened key gives back a key that starts with it. */
  lemma PrefixRoundTrip(name: string, valueName: string)
    requires StartsWith(valueName, name)
    ensures name + Shorten(valueName, name) == valueName
  {
  }

  /**
   * When every key starts with the enum's name, no value is lost: each
   * input key's value is found under the key without the prefix.
   */
  lemma PrefixedKeysKept(name: string, m: Members, i: nat)
    requires i < |m|
    requires forall j :: 0 <= j < |m| ==> StartsWith(m[j].0, name)
    requires forall j, l :: 0 <= j < l < |m| ==> m[j].0 != m[l].0
    ensures Shorten(m[i].0, name) in ShortenedValues(name, m)
    ensures ShortenedValues(name, m)[Shorten(m[i].0, name)] == m[i].1
  {
    forall j | i < j < |m|
      ensures Shorten(m[j].0, name) != Shorten(m[i].0, name)
    {
      PrefixRoundTrip(name, m[i].0);
      PrefixRoundTrip(name, m[j].0);
    }
    ShortenedLastWins(name, m, i);
  }

  /** `UIControlStateDisabled` of `UIControlState` is stored as `Disabled`. */
  lemma ShortenExample()
    ensures ShortenedValues("UIControlState", [("UIControlStateDisabled", JInt(2))]) == map["Disabled" := JInt(2)]
  {
    var m: Members := [("UIControlStateDisabled", JInt(2))];
    assert m[..0] == [];
    assert Shorten("UIControlStateDisabled", "UIControlState") == "Disabled";
  }
}
