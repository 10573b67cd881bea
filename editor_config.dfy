/**
 * Overlay of style conventions onto an option set (EditorConfigOptionsApplier).
 *
 * The catalogue of formatting options is reduced to those that have an
 * editorconfig storage location; applying conventions then folds over that
 * list, and every option whose convention value can be read overwrites the
 * option set under its key, scoped to the language when the option is
 * per-language.
 */
module EditorConfig {
  import opened Wrappers

  /** Full type names of editorconfig storage locations begin with this. */
  const EditorConfigStorageLocationPrefix: string := "Microsoft.CodeAnalysis.Options.EditorConfigStorageLocation"

  /** A storage location of an option, known by the full name of its runtime type. */
  datatype StorageLocation = StorageLocation(typeFullName: string)

  /** A formatting option (IOption): its name, its scoping and where it can be stored. */
  datatype FormattingOption = FormattingOption(name: string, isPerLanguage: bool, storageLocations: seq<StorageLocation>)

  /** An option paired with its editorconfig storage location, if it has one. */
  datatype OptionWithStorage = OptionWithStorage(option: FormattingOption, storage: Option<StorageLocation>)

  /** A typed option value, as an editorconfig storage location parses it. */
  datatype Value = BoolValue(b: bool) | IntValue(n: int) | EnumValue(literal: string)

  /** The key of an option set: the option and, for per-language options, the language. */
  datatype OptionKey = OptionKey(option: FormattingOption, language: Option<string>)

  /** An immutable option set; WithChangedOption is a map update. */
  type OptionSet = map<OptionKey, Value>

  /**
   * Reading an option's convention value from a conventions snapshot
   * (TryGetConventionValue with the snapshot fixed): the typed value, or
   * None when the snapshot has no parsable value for it.
   */
  type ConventionLookup = OptionWithStorage -> Option<Value>

  predicate StartsWith(s: string, prefix: string) {
    |prefix| <= |s| && s[..|prefix|] == prefix
  }

  predicate IsEditorConfigStorage(storageLocation: StorageLocation) {
    StartsWith(storageLocation.typeFullName, EditorConfigStorageLocationPrefix)
  }

  /** A storage location is an editorconfig one exactly when its type name extends the prefix. */
  lemma IsEditorConfigStorageByName(storageLocation: StorageLocation)
    ensures IsEditorConfigStorage(storageLocation) <==>
      exists suffix :: storageLocation.typeFullName == EditorConfigStorageLocationPrefix + suffix
  {
    var name := storageLocation.typeFullName;
    if IsEditorConfigStorage(storageLocation) {
      var suffix := name[|EditorConfigStorageLocationPrefix|..];
      assert name == EditorConfigStorageLocationPrefix + suffix;
    }
    if exists suffix :: name == EditorConfigStorageLocationPrefix + suffix {
      var suffix :| name == EditorConfigStorageLocationPrefix + suffix;
      assert name[..|EditorConfigStorageLocationPrefix|] == EditorConfigStorageLocationPrefix;
    }
  }

  /** The first editorconfig storage location in the list, if any. */
  function FirstEditorConfigStorage(storageLocations: seq<StorageLocation>): (r: Option<StorageLocation>)
    ensures r.None? <==> forall k :: 0 <= k < |storageLocations| ==> !IsEditorConfigStorage(storageLocations[k])
    ensures r.Some? ==>
      exists i :: 0 <= i < |storageLocations| && storageLocations[i] == r.value && IsEditorConfigStorage(r.value)
        && forall k :: 0 <= k < i ==> !IsEditorConfigStorage(storageLocations[k])
  {
    if |storageLocations| == 0 then None
    else if IsEditorConfigStorage(storageLocations[0]) then Some(storageLocations[0])
    else
      var r := FirstEditorConfigStorage(storageLocations[1..]);
      assert r.Some? ==> exists i :: 0 <= i < |storageLocations[1..]| && storageLocations[1..][i] == r.value;
      r
  }

  /**
   * Pairs an option with its editorconfig storage: none when the option has
   * no storage locations, otherwise the first editorconfig one, or none.
   */
  function GetOptionWithStorage(option: FormattingOption): (r: OptionWithStorage)
    ensures r.option == option
    ensures |option.storageLocations| == 0 ==> r.storage.None?
    ensures r.storage.None? <==>
      forall k :: 0 <= k < |option.storageLocations| ==> !IsEditorConfigStorage(option.storageLocations[k])
    ensures r.storage.Some? ==>
      exists i :: 0 <= i < |option.storageLocations| && option.storageLocations[i] == r.storage.value
        && IsEditorConfigStorage(r.storage.value)
        && forall k :: 0 <= k < i ==> !IsEditorConfigStorage(option.storageLocations[k])
  {
    var editorConfigStorage :=
      if |option.storageLocations| != 0 then FirstEditorConfigStorage(option.storageLocations) else None;
    OptionWithStorage(option, editorConfigStorage)
  }

  /**
   * The catalogue's options paired with their storage, keeping only those
   * that have editorconfig storage, in catalogue order.
   */
  function OptionsWithStorage(options: seq<FormattingOption>): (r: seq<OptionWithStorage>)
    ensures |r| == |StoragePositions(options)| <= |options|
    ensures forall k :: 0 <= k < |r| ==> r[k] == GetOptionWithStorage(options[StoragePositions(options)[k]])
    decreases |options|
  {
    if |options| == 0 then []
    else
      var last := |options| - 1;
      var kept := OptionsWithStorage(options[..last]);
      var optionWithStorage := GetOptionWithStorage(options[last]);
      assert forall k :: 0 <= k < |kept| ==> options[StoragePositions(options[..last])[k]] == options[..last][StoragePositions(options[..last])[k]];
      if optionWithStorage.storage.Some? then kept + [optionWithStorage] else kept
  }

  /**
   * The catalogue positions of the options that have editorconfig storage, in
   * increasing order.
   */
  ghost function StoragePositions(options: seq<FormattingOption>): (r: seq<nat>)
    ensures |r| <= |options|
    ensures forall k :: 0 <= k < |r| ==> r[k] < |options|
    ensures forall k, l :: 0 <= k < l < |r| ==> r[k] < r[l]
    ensures forall j :: 0 <= j < |options| ==> (j in r <==> GetOptionWithStorage(options[j]).storage.Some?)
    decreases |options|
  {
    if |options| == 0 then []
    else
      var last := |options| - 1;
      var positions := StoragePositions(options[..last]);
      if GetOptionWithStorage(options[last]).storage.Some? then positions + [last] else positions
  }

  /**
   * The kept options are exactly the catalogue's options that have
   * editorconfig storage, each paired with that storage.
   */
  lemma OptionsWithStorageMembers(options: seq<FormattingOption>)
    ensures forall optionWithStorage :: optionWithStorage in OptionsWithStorage(options) ==>
      && optionWithStorage.storage.Some? && optionWithStorage.option in options
      && optionWithStorage == GetOptionWithStorage(optionWithStorage.option)
    ensures forall option :: option in options && GetOptionWithStorage(option).storage.Some? ==>
      GetOptionWithStorage(option) in OptionsWithStorage(options)
  {
    var kept, positions := OptionsWithStorage(options), StoragePositions(options);
    forall option | option in options && GetOptionWithStorage(option).storage.Some?
      ensures GetOptionWithStorage(option) in kept
    {
      var j :| 0 <= j < |options| && options[j] == option;
      var k :| 0 <= k < |positions| && positions[k] == j;
      assert kept[k] == GetOptionWithStorage(option);
    }
  }

  /** The key under which an option is stored for the given language. */
  function KeyFor(option: FormattingOption, languageName: string): (key: OptionKey)
    ensures key.option == option
    ensures option.isPerLanguage ==> key.language == Some(languageName)
    ensures !option.isPerLanguage ==> key.language == None
  {
    OptionKey(option, if option.isPerLanguage then Some(languageName) else None)
  }

  /**
   * Two languages share an option's key exactly when the option is not
   * per-language or the languages are the same.
   */
  lemma KeyForSameKey(option: FormattingOption, languageName: string, otherLanguageName: string)
    ensures KeyFor(option, languageName) == KeyFor(option, otherLanguageName)
        <==> !option.isPerLanguage || languageName == otherLanguageName
  {
    if option.isPerLanguage && languageName != otherLanguageName {
      assert KeyFor(option, languageName).language.value != KeyFor(option, otherLanguageName).language.value;
    }
  }

  /** One step of the overlay: an option whose lookup succeeds overwrites its key, nothing else changes. */
  function ApplyConvention(optionSet: OptionSet, optionWithStorage: OptionWithStorage, lookup: ConventionLookup, languageName: string): (r: OptionSet)
    ensures lookup(optionWithStorage).None? ==> r == optionSet
    ensures lookup(optionWithStorage).Some? ==>
      var key := KeyFor(optionWithStorage.option, languageName);
      && r.Keys == optionSet.Keys + {key}
      && r[key] == lookup(optionWithStorage).value
      && forall k :: k in optionSet && k != key ==> r[k] == optionSet[k]
  {
    match lookup(optionWithStorage)
    case None => optionSet
    case Some(value) => optionSet[KeyFor(optionWithStorage.option, languageName) := value]
  }

  /** The overlay of every option in the list, in list order, onto the option set. */
  function ConventionsApplied(optionSet: OptionSet, optionsWithStorage: seq<OptionWithStorage>, lookup: ConventionLookup, languageName: string): OptionSet
    decreases |optionsWithStorage|
  {
    if |optionsWithStorage| == 0 then optionSet
    else
      var last := |optionsWithStorage| - 1;
      ApplyConvention(ConventionsApplied(optionSet, optionsWithStorage[..last], lookup, languageName),
                      optionsWithStorage[last], lookup, languageName)
  }

  /** The option `optionWithStorage` writes the key `key` when applied. */
  predicate Writes(optionWithStorage: OptionWithStorage, lookup: ConventionLookup, languageName: string, key: OptionKey) {
    lookup(optionWithStorage).Some? && KeyFor(optionWithStorage.option, languageName) == key
  }

  /** With an empty option list the option set is returned as it is. */
  lemma ConventionsAppliedEmpty(optionSet: OptionSet, lookup: ConventionLookup, languageName: string)
    ensures ConventionsApplied(optionSet, [], lookup, languageName) == optionSet
  {
  }

  /** A key that no option in the list writes keeps its input value, or stays absent. */
  lemma {:induction false} ConventionsAppliedFrame(
    optionSet: OptionSet, optionsWithStorage: seq<OptionWithStorage>, lookup: ConventionLookup, languageName: string, key: OptionKey)
    requires forall k :: 0 <= k < |optionsWithStorage| ==> !Writes(optionsWithStorage[k], lookup, languageName, key)
    ensures var r := ConventionsApplied(optionSet, optionsWithStorage, lookup, languageName);
      (key in r <==> key in optionSet) && (key in optionSet ==> r[key] == optionSet[key])
    decreases |optionsWithStorage|
  {
    if |optionsWithStorage| > 0 {
      var last := |optionsWithStorage| - 1;
      ConventionsAppliedFrame(optionSet, optionsWithStorage[..last], lookup, languageName, key);
    }
  }

  /** Every key the result holds comes from the input option set or from an option in the list. */
  lemma {:induction false} ConventionsAppliedKeys(
    optionSet: OptionSet, optionsWithStorage: seq<OptionWithStorage>, lookup: ConventionLookup, languageName: string)
    ensures var r := ConventionsApplied(optionSet, optionsWithStorage, lookup, languageName);
      forall key :: key in r ==>
        key in optionSet || exists k :: 0 <= k < |optionsWithStorage| && Writes(optionsWithStorage[k], lookup, languageName, key)
    decreases |optionsWithStorage|
  {
    if |optionsWithStorage| > 0 {
      var last := |optionsWithStorage| - 1;
      var prefix := optionsWithStorage[..last];
      ConventionsAppliedKeys(optionSet, prefix, lookup, languageName);
      var r := ConventionsApplied(optionSet, optionsWithStorage, lookup, languageName);
      forall key | key in r
        ensures key in optionSet || exists k :: 0 <= k < |optionsWithStorage| && Writes(optionsWithStorage[k], lookup, languageName, key)
      {
        if !Writes(optionsWithStorage[last], lookup, languageName, key) {
          if key !in optionSet {
            var k :| 0 <= k < |prefix| && Writes(prefix[k], lookup, languageName, key);
            assert optionsWithStorage[k] == prefix[k];
          }
        }
      }
    }
  }

  /** When several options write the same key, the value of the last one in the list wins. */
  lemma {:induction false} ConventionsAppliedLastWins(
    optionSet: OptionSet, optionsWithStorage: seq<OptionWithStorage>, lookup: ConventionLookup, languageName: string,
    key: OptionKey, i: nat)
    requires i < |optionsWithStorage| && Writes(optionsWithStorage[i], lookup, languageName, key)
    requires forall k :: i < k < |optionsWithStorage| ==> !Writes(optionsWithStorage[k], lookup, languageName, key)
    ensures var r := ConventionsApplied(optionSet, optionsWithStorage, lookup, languageName);
      key in r && r[key] == lookup(optionsWithStorage[i]).value
    decreases |optionsWithStorage|
  {
    var last := |optionsWithStorage| - 1;
    if i < last {
      ConventionsAppliedLastWins(optionSet, optionsWithStorage[..last], lookup, languageName, key, i);
    }
  }

  /** The options of the list never write conflicting values to one key. */
  ghost predicate Consistent(optionsWithStorage: seq<OptionWithStorage>, lookup: ConventionLookup, languageName: string) {
    forall a, b :: a in optionsWithStorage && b in optionsWithStorage
      && lookup(a).Some? && lookup(b).Some? && KeyFor(a.option, languageName) == KeyFor(b.option, languageName)
      ==> lookup(a) == lookup(b)
  }

  /** Without conflicts, a key written by any option of the list ends up holding that option's value. */
  lemma {:induction false} ConventionsAppliedConsistentWriter(
    optionSet: OptionSet, optionsWithStorage: seq<OptionWithStorage>, lookup: ConventionLookup, languageName: string,
    writer: OptionWithStorage)
    requires Consistent(optionsWithStorage, lookup, languageName)
    requires writer in optionsWithStorage && lookup(writer).Some?
    ensures var r := ConventionsApplied(optionSet, optionsWithStorage, lookup, languageName);
      var key := KeyFor(writer.option, languageName);
      key in r && r[key] == lookup(writer).value
    decreases |optionsWithStorage|
  {
    var last := |optionsWithStorage| - 1;
    var prefix := optionsWithStorage[..last];
    var key := KeyFor(writer.option, languageName);
    if !Writes(optionsWithStorage[last], lookup, languageName, key) {
      assert writer in prefix by {
        var k :| 0 <= k < |optionsWithStorage| && optionsWithStorage[k] == writer;
        assert k != last;
        assert prefix[k] == writer;
      }
      assert Consistent(prefix, lookup, languageName) by {
        forall a | a in prefix ensures a in optionsWithStorage {
          var k :| 0 <= k < |prefix| && prefix[k] == a;
          assert optionsWithStorage[k] == a;
        }
      }
      ConventionsAppliedConsistentWriter(optionSet, prefix, lookup, languageName, writer);
    }
  }

  /**
   * Processing order does not matter when no two options write conflicting
   * values to one key: any permutation of the list gives the same option set.
   */
  lemma ConventionsAppliedOrderIndependent(
    optionSet: OptionSet, options1: seq<OptionWithStorage>, options2: seq<OptionWithStorage>,
    lookup: ConventionLookup, languageName: string)
    requires multiset(options1) == multiset(options2)
    requires Consistent(options1, lookup, languageName)
    ensures ConventionsApplied(optionSet, options1, lookup, languageName)
         == ConventionsApplied(optionSet, options2, lookup, languageName)
  {
    var r1 := ConventionsApplied(optionSet, options1, lookup, languageName);
    var r2 := ConventionsApplied(optionSet, options2, lookup, languageName);
    assert forall a :: a in options1 <==> a in options2 by {
      forall a ensures a in options1 <==> a in options2 {
        assert a in options1 <==> a in multiset(options1);
        assert a in options2 <==> a in multiset(options2);
      }
    }
    assert Consistent(options2, lookup, languageName);
    ConventionsAppliedKeys(optionSet, options1, lookup, languageName);
    ConventionsAppliedKeys(optionSet, options2, lookup, languageName);
    forall key | key in r1 || key in r2
      ensures key in r1 && key in r2 && r1[key] == r2[key]
    {
      if exists k :: 0 <= k < |options1| && Writes(options1[k], lookup, languageName, key) {
        var k :| 0 <= k < |options1| && Writes(options1[k], lookup, languageName, key);
        var writer := options1[k];
        ConventionsAppliedConsistentWriter(optionSet, options1, lookup, languageName, writer);
        ConventionsAppliedConsistentWriter(optionSet, options2, lookup, languageName, writer);
      } else {
        forall k | 0 <= k < |options2| ensures !Writes(options2[k], lookup, languageName, key) {
          assert options2[k] in options1;
          var j :| 0 <= j < |options1| && options1[j] == options2[k];
        }
        ConventionsAppliedFrame(optionSet, options1, lookup, languageName, key);
        ConventionsAppliedFrame(optionSet, options2, lookup, languageName, key);
      }
    }
    assert r1.Keys == r2.Keys;
  }

  /**
   * Overlaying conventions for one language never changes the value stored
   * for a per-language option under a different language.
   */
  lemma LanguageIsolation(
    optionSet: OptionSet, optionsWithStorage: seq<OptionWithStorage>, lookup: ConventionLookup,
    languageName: string, otherLanguage: string, key: OptionKey)
    requires otherLanguage != languageName && key.language == Some(otherLanguage)
    ensures var r := ConventionsApplied(optionSet, optionsWithStorage, lookup, languageName);
      (key in r <==> key in optionSet) && (key in optionSet ==> r[key] == optionSet[key])
  {
    ConventionsAppliedFrame(optionSet, optionsWithStorage, lookup, languageName, key);
  }

  /** Options whose lookup fails have no effect on the result. */
  lemma {:induction false} FailedLookupsIgnored(
    optionSet: OptionSet, optionsWithStorage: seq<OptionWithStorage>, failed: OptionWithStorage,
    lookup: ConventionLookup, languageName: string, i: nat)
    requires lookup(failed).None? && i <= |optionsWithStorage|
    ensures ConventionsApplied(optionSet, optionsWithStorage[..i] + [failed] + optionsWithStorage[i..], lookup, languageName)
         == ConventionsApplied(optionSet, optionsWithStorage, lookup, languageName)
    decreases |optionsWithStorage|
  {
    var extended := optionsWithStorage[..i] + [failed] + optionsWithStorage[i..];
    if i == |optionsWithStorage| {
      assert extended[..|extended| - 1] == optionsWithStorage;
    } else {
      var last := |optionsWithStorage| - 1;
      var prefix := optionsWithStorage[..last];
      FailedLookupsIgnored(optionSet, prefix, failed, lookup, languageName, i);
      assert extended[..|extended| - 1] == prefix[..i] + [failed] + prefix[i..];
      assert extended[|extended| - 1] == optionsWithStorage[last];
    }
  }

  /** Applies style conventions to option sets for the catalogue it was built from. */
  class EditorConfigOptionsApplier {
    /** The catalogue's options that have editorconfig storage, in catalogue order. */
    const formattingOptionsWithStorage: seq<OptionWithStorage>

    /** Builds the applier from the options the formatting option types declare. */
    constructor (formattingOptions: seq<FormattingOption>)
      ensures formattingOptionsWithStorage == OptionsWithStorage(formattingOptions)
    {
      formattingOptionsWithStorage := OptionsWithStorage(formattingOptions);
    }

    /** Overlays the conventions for the applier's options onto `optionSet`. */
    method ApplyConventions(optionSet: OptionSet, codingConventions: ConventionLookup, languageName: string) returns (r: OptionSet)
      ensures r == ConventionsApplied(optionSet, formattingOptionsWithStorage, codingConventions, languageName)
    {
      r := optionSet;
      for i := 0 to |formattingOptionsWithStorage|
        invariant r == ConventionsApplied(optionSet, formattingOptionsWithStorage[..i], codingConventions, languageName)
      {
        var optionWithStorage := formattingOptionsWithStorage[i];
        assert formattingOptionsWithStorage[..i + 1][..i] == formattingOptionsWithStorage[..i];
        var value := codingConventions(optionWithStorage);
        if value.Some? {
          var option := optionWithStorage.option;
          var optionKey := OptionKey(option, if option.isPerLanguage then Some(languageName) else None);
          r := r[optionKey := value.value];
        }
      }
      assert formattingOptionsWithStorage[..|formattingOptionsWithStorage|] == formattingOptionsWithStorage;
    }

    /** Overlays the conventions for the given options onto `optionSet`. */
    method ApplyConventionsForOptions(
      optionSet: OptionSet, optionsWithStorage: seq<OptionWithStorage>, codingConventions: ConventionLookup, languageName: string)
      returns (r: OptionSet)
      ensures r == ConventionsApplied(optionSet, optionsWithStorage, codingConventions, languageName)
    {
      r := optionSet;
      for i := 0 to |optionsWithStorage|
        invariant r == ConventionsApplied(optionSet, optionsWithStorage[..i], codingConventions, languageName)
      {
        var optionWithStorage := optionsWithStorage[i];
        assert optionsWithStorage[..i + 1][..i] == optionsWithStorage[..i];
        var value := codingConventions(optionWithStorage);
        if value.Some? {
          var option := optionWithStorage.option;
          var optionKey := OptionKey(option, if option.isPerLanguage then Some(languageName) else None);
          r := r[optionKey := value.value];
        }
      }
      assert optionsWithStorage[..|optionsWithStorage|] == optionsWithStorage;
    }
  }
}
