/**
  The app's preference store, reduced to its one setting: whether the
  interval sequence repeats. The store is a map from key names to stored
  boolean values; a key with no entry reads as absent (Kotlin `null`).
*/
module DataStoreManager {
  import opened Options

  type Preferences = map<string, bool>

  /** The preference file's name: the package name followed by
      "_preferences". */
  function StoreName(packageName: string): (r: string)
    ensures |r| == |packageName| + 12
    ensures r[..|packageName|] == packageName
    ensures r[|packageName|..] == "_preferences"
  {
    packageName + "_preferences"
  }

  /** The name of the repeat key: the store name followed by ".repeatable". */
  function RepeatKey(packageName: string): (k: string)
    ensures k == packageName + "_preferences.repeatable"
    ensures |k| == |packageName| + 23
  {
    StoreName(packageName) + ".repeatable"
  }

  /** `preferences[key]`: the stored value, or `None` when there is none. */
  function Lookup(prefs: Preferences, key: string): (r: Option<bool>)
    ensures r.Some? <==> key in prefs
    ensures r.Some? ==> r.value == prefs[key]
  {
    if key in prefs then Some(prefs[key]) else None
  }

  /** `isRepeatable`: the stored repeat flag, `false` when none is stored. */
  function IsRepeatable(prefs: Preferences, packageName: string): (b: bool)
    ensures RepeatKey(packageName) !in prefs ==> !b
    ensures RepeatKey(packageName) in prefs ==> b == prefs[RepeatKey(packageName)]
  {
    Lookup(prefs, RepeatKey(packageName)).GetOr(false)
  }

  /** `toggleRepeatable`: stores the negation of the stored flag, or `true`
      when none is stored; no other entry changes. */
  function ToggleRepeatable(prefs: Preferences, packageName: string): (r: Preferences)
    ensures r.Keys == prefs.Keys + {RepeatKey(packageName)}
    ensures RepeatKey(packageName) !in prefs ==> r[RepeatKey(packageName)]
    ensures RepeatKey(packageName) in prefs ==> r[RepeatKey(packageName)] == !prefs[RepeatKey(packageName)]
    ensures forall k :: k in prefs && k != RepeatKey(packageName) ==> r[k] == prefs[k]
  {
    var key := RepeatKey(packageName);
    var oldValue := Lookup(prefs, key);
    var newValue := match oldValue
      case Some(v) => !v
      case None => true;
    prefs[key := newValue]
  }

  /** Reading after a toggle gives the negation of reading before it, in
      both the stored and the absent case. */
  lemma ToggleNegatesRead(prefs: Preferences, packageName: string)
    ensures IsRepeatable(ToggleRepeatable(prefs, packageName), packageName) == !IsRepeatable(prefs, packageName)
  {
  }

  /** Two toggles restore a stored flag; from an absent flag they leave an
      explicit `false`, which reads the same as the absent one. */
  lemma ToggleTwice(prefs: Preferences, packageName: string)
    ensures var twice := ToggleRepeatable(ToggleRepeatable(prefs, packageName), packageName);
      && IsRepeatable(twice, packageName) == IsRepeatable(prefs, packageName)
      && (RepeatKey(packageName) in prefs ==> twice == prefs)
      && (RepeatKey(packageName) !in prefs ==> twice == prefs[RepeatKey(packageName) := false])
  {
  }
}
