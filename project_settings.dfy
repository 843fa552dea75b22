/**
 * `ProjectSettings` of a batch analysis: the settings of the project being scanned. On top of
 * the generic settings store it (1) loads its sources in a fixed order, (2) keeps a deprecated
 * key/value configuration in step with every set, remove and clear, and (3) refuses, in
 * preview mode, to hand out secured properties other than licenses.
 */
module BatchScan {
  import opened Wrappers
  import opened Strings

  /** A set of properties, as a source hands them to `addProperties`. */
  type Properties = map<string, string>

  /**
   * The deprecated configuration object kept in step with the settings. A key may be present
   * with a null value (`None`), since `setProperty` passes a possibly-null value through.
   */
  type Configuration = map<string, Option<string>>

  const SecuredSuffix := ".secured"
  const LicenseMarker := ".license"

  /** The text of the exception that refuses a secured property in preview mode, around the key. */
  const SecuredAccessLead := "Access to the secured property '"
  const SecuredAccessTail :=
    "' is not possible in preview mode. The SonarQube plugin which requires this property must be deactivated in preview mode."

  function SecuredAccessMessage(key: string): string {
    SecuredAccessLead + key + SecuredAccessTail
  }

  /** The refusal message names the property that was asked for. */
  lemma {:induction false} SecuredAccessMessageNamesKey(key: string)
    ensures Contains(SecuredAccessMessage(key), key)
  {
    var text := SecuredAccessMessage(key);
    assert text[|SecuredAccessLead|..|SecuredAccessLead| + |key|] == key;
    assert OccursAt(text, key, |SecuredAccessLead|);
    ContainsIffOccurs(text, key);
  }

  /**
   * `doOnGetProperties(key)` for a settings object whose analysis mode is `preview`: the message
   * of the exception it throws, or `None` when the read may go ahead.
   */
  function GetPropertiesRefusal(preview: bool, key: string): (refusal: Option<string>)
    ensures !preview ==> refusal == None
    ensures Contains(key, LicenseMarker) ==> refusal == None
    ensures !EndsWith(key, SecuredSuffix) ==> refusal == None
    ensures refusal.Some? ==> refusal.value == SecuredAccessMessage(key)
  {
    if preview && EndsWith(key, SecuredSuffix) && !Contains(key, LicenseMarker) then
      Some(SecuredAccessMessage(key))
    else
      None
  }

  /**
   * In terms of occurrences: a read is refused exactly when the mode is preview, ".secured"
   * occurs at the very end of the key, and ".license" occurs nowhere in it.
   */
  lemma {:induction false} RefusedIffSecuredNotLicensed(preview: bool, key: string)
    ensures GetPropertiesRefusal(preview, key).Some? <==>
      preview && OccursAt(key, SecuredSuffix, |key| - |SecuredSuffix|) && forall i :: !OccursAt(key, LicenseMarker, i)
  {
    ContainsIffOccurs(key, LicenseMarker);
  }

  /** A license key stays readable in preview mode even though it ends with ".secured". */
  lemma {:induction false} LicensedSecuredKeyReadable(preview: bool, prefix: string)
    ensures GetPropertiesRefusal(preview, prefix + LicenseMarker + SecuredSuffix) == None
  {
    var key := prefix + LicenseMarker + SecuredSuffix;
    assert key[|prefix|..|prefix| + |LicenseMarker|] == LicenseMarker;
    assert OccursAt(key, LicenseMarker, |prefix|);
    ContainsIffOccurs(key, LicenseMarker);
    assert Contains(key, LicenseMarker);
  }

  /** One call of a `doOn*` mirroring hook. */
  datatype Change =
    | SetProperty(key: string, value: Option<string>)
    | RemoveProperty(key: string)
    | ClearProperties

  /** The deprecated configuration after one hook call. */
  function Applied(config: Configuration, change: Change): (r: Configuration)
    ensures change.SetProperty? ==> change.key in r && r[change.key] == change.value
    ensures change.RemoveProperty? ==> change.key !in r
    ensures change.ClearProperties? ==> r == map[]
    ensures !change.ClearProperties? ==> forall k :: k != change.key ==> (k in r <==> k in config)
    ensures !change.ClearProperties? ==> forall k :: k != change.key && k in r ==> r[k] == config[k]
  {
    match change
    case SetProperty(key, value) => config[key := value]
    case RemoveProperty(key) => config - {key}
    case ClearProperties => map[]
  }

  /** The deprecated configuration after a sequence of hook calls, in call order. */
  function Replayed(config: Configuration, changes: seq<Change>): Configuration {
    if changes == [] then config else Applied(Replayed(config, changes[..|changes| - 1]), changes[|changes| - 1])
  }

  /**
   * Reference reading of a mirrored key, one key at a time: the value of the last call that
   * touched `key` (absent after a remove or a clear), or its initial value if none did.
   */
  function LastWritten(config: Configuration, changes: seq<Change>, key: string): Option<Option<string>> {
    if changes == [] then
      (if key in config then Some(config[key]) else None)
    else
      match changes[|changes| - 1]
      case SetProperty(k, value) => if k == key then Some(value) else LastWritten(config, changes[..|changes| - 1], key)
      case RemoveProperty(k) => if k == key then None else LastWritten(config, changes[..|changes| - 1], key)
      case ClearProperties => None
  }

  /** After any sequence of hook calls, each key holds what the last call touching it wrote. */
  lemma {:induction false} ReplayedIsLastWritten(config: Configuration, changes: seq<Change>, key: string)
    ensures key in Replayed(config, changes) <==> LastWritten(config, changes, key).Some?
    ensures key in Replayed(config, changes) ==> Replayed(config, changes)[key] == LastWritten(config, changes, key).value
  {
    if changes != [] {
      ReplayedIsLastWritten(config, changes[..|changes| - 1], key);
    }
  }

  class ProjectSettings {
    /** Whether the analysis runs in preview mode (`mode.isPreview()`). */
    const preview: bool
    /** The deprecated configuration the settings are mirrored into. */
    var deprecatedConfiguration: Configuration
    /** The property sources handed to `addProperties`, in the order they were added. */
    var addedSources: seq<Properties>
    /** The configuration as it was handed to the constructor, and the hook calls since. */
    ghost const initialConfiguration: Configuration
    ghost var changes: seq<Change>

    /** The configuration is the initial one with every hook call since applied in order. */
    ghost predicate Valid()
      reads this
    {
      deprecatedConfiguration == Replayed(initialConfiguration, changes)
    }

    /**
     * Builds the settings and loads them: global settings first, then the server's project
     * settings for the root module's key with branch, then the root module's own properties.
     */
    constructor(preview: bool, deprecatedConfiguration: Configuration, globalProperties: Properties,
                referentials: string -> Properties, rootKeyWithBranch: string, rootProperties: Properties)
      ensures this.preview == preview && initialConfiguration == deprecatedConfiguration
      ensures addedSources == [globalProperties, referentials(rootKeyWithBranch), rootProperties]
      ensures Valid()
    {
      this.preview := preview;
      this.deprecatedConfiguration := deprecatedConfiguration;
      initialConfiguration := deprecatedConfiguration;
      changes := [];
      addedSources := [];
      new;
      Init(globalProperties, referentials, rootKeyWithBranch, rootProperties);
    }

    /** `init`: adds the three sources, in order, after those already added. */
    method Init(globalProperties: Properties, referentials: string -> Properties,
                rootKeyWithBranch: string, rootProperties: Properties)
      requires Valid()
      modifies this
      ensures addedSources == old(addedSources) + [globalProperties, referentials(rootKeyWithBranch), rootProperties]
      ensures Valid()
    {
      addedSources := addedSources + [globalProperties];
      addedSources := addedSources + [referentials(rootKeyWithBranch)];
      addedSources := addedSources + [rootProperties];
    }

    /**
     * `doOnGetProperties(key)` on these settings: refused, with the secured-access message, exactly
     * when this analysis runs in preview mode and `key` is a secured key that is not a license.
     */
    function DoOnGetProperties(key: string): (refusal: Option<string>)
      ensures refusal.Some? <==> preview && EndsWith(key, SecuredSuffix) && !Contains(key, LicenseMarker)
      ensures refusal.Some? ==> refusal.value == SecuredAccessMessage(key)
    {
      GetPropertiesRefusal(preview, key)
    }

    /** `doOnSetProperty`: writes the key and its possibly-null value into the configuration. */
    method DoOnSetProperty(key: string, value: Option<string>)
      requires Valid()
      modifies this
      ensures deprecatedConfiguration == Applied(old(deprecatedConfiguration), SetProperty(key, value))
      ensures changes == old(changes) + [SetProperty(key, value)] && addedSources == old(addedSources)
      ensures Valid()
    {
      deprecatedConfiguration := deprecatedConfiguration[key := value];
      changes := changes + [SetProperty(key, value)];
      assert changes[..|changes| - 1] == old(changes);
    }

    /** `doOnRemoveProperty`: clears exactly that key from the configuration. */
    method DoOnRemoveProperty(key: string)
      requires Valid()
      modifies this
      ensures deprecatedConfiguration == Applied(old(deprecatedConfiguration), RemoveProperty(key))
      ensures changes == old(changes) + [RemoveProperty(key)] && addedSources == old(addedSources)
      ensures Valid()
    {
      deprecatedConfiguration := deprecatedConfiguration - {key};
      changes := changes + [RemoveProperty(key)];
      assert changes[..|changes| - 1] == old(changes);
    }

    /** `doOnClearProperties`: empties the configuration. */
    method DoOnClearProperties()
      requires Valid()
      modifies this
      ensures deprecatedConfiguration == Applied(old(deprecatedConfiguration), ClearProperties)
      ensures changes == old(changes) + [ClearProperties] && addedSources == old(addedSources)
      ensures Valid()
    {
      deprecatedConfiguration := map[];
      changes := changes + [ClearProperties];
      assert changes[..|changes| - 1] == old(changes);
    }
  }
}
