/** The database of Unity API deprecations (`UnityApiMigrationData`): a fixed
    table of migrations, the Unity version-string parser and comparison, and
    the four queries over the table. */
module MigrationData {
  import opened Wrappers
  import opened Seqs
  import opened Text
  import opened Ordering

  /** One deprecated API and its replacement. `removedVersion` holds a version
      or the text "Not Removed"; no query reads it. */
  datatype ApiMigration = ApiMigration(
    oldApi: string,
    newApi: string,
    minVersion: string,
    removedVersion: string,
    category: string,
    notes: string)

  /** A parsed version `(major, minor, patch)`. */
  datatype Version = Version(major: int, minor: int, patch: int)

  /** The characters a version string is split on. */
  const VersionSeparators: set<char> := {'.', '-'}

  // ---------------------------------------------------------------- versions

  /** Parses "6000.0.0", "2022.3", "6000" or "2022.3.1f1". Components are
      separated by '.' or '-'; a missing or unparsable component is 0, and the
      patch component keeps only its leading digits. Parsing never fails. */
  function ParseUnityVersion(version: string): (v: Version)
    ensures 0 <= v.major <= Int32Max && 0 <= v.minor <= Int32Max && 0 <= v.patch <= Int32Max
    ensures ParseInt(Split(version, VersionSeparators)[0]).None? ==> v.major == 0
    ensures ParseInt(Split(version, VersionSeparators)[0]).Some? ==>
              v.major == ParseInt(Split(version, VersionSeparators)[0]).value
    ensures |Split(version, VersionSeparators)| < 2 ==> v.minor == 0
    ensures |Split(version, VersionSeparators)| > 1 && ParseInt(Split(version, VersionSeparators)[1]).None? ==>
              v.minor == 0
    ensures |Split(version, VersionSeparators)| > 1 && ParseInt(Split(version, VersionSeparators)[1]).Some? ==>
              v.minor == ParseInt(Split(version, VersionSeparators)[1]).value
    ensures |Split(version, VersionSeparators)| < 3 ==> v.patch == 0
    ensures |Split(version, VersionSeparators)| > 2 && ParseInt(LeadingDigits(Split(version, VersionSeparators)[2])).None? ==>
              v.patch == 0
    ensures |Split(version, VersionSeparators)| > 2 && ParseInt(LeadingDigits(Split(version, VersionSeparators)[2])).Some? ==>
              v.patch == ParseInt(LeadingDigits(Split(version, VersionSeparators)[2])).value
  {
    var parts := Split(version, VersionSeparators);
    Version(
      ParseIntOrZero(parts[0]),
      if |parts| > 1 then ParseIntOrZero(parts[1]) else 0,
      if |parts| > 2 then ParseIntOrZero(LeadingDigits(parts[2])) else 0)
  }

  /** Reference order on versions: by major, then minor, then patch. */
  predicate VersionLess(a: Version, b: Version) {
    a.major < b.major
    || (a.major == b.major && a.minor < b.minor)
    || (a.major == b.major && a.minor == b.minor && a.patch < b.patch)
  }

  /** `int.CompareTo`: -1, 0 or 1. */
  function CompareInt(x: int, y: int): int {
    if x < y then -1 else if x > y then 1 else 0
  }

  /** Compares two versions component by component, most significant first. */
  function CompareVersions(a: Version, b: Version): (r: int)
    ensures r == -1 || r == 0 || r == 1
    ensures r < 0 <==> VersionLess(a, b)
    ensures r > 0 <==> VersionLess(b, a)
    ensures r == 0 <==> a == b
  {
    if a.major != b.major then CompareInt(a.major, b.major)
    else if a.minor != b.minor then CompareInt(a.minor, b.minor)
    else CompareInt(a.patch, b.patch)
  }

  /** Swapping the arguments negates the comparison. */
  lemma CompareVersionsAntisymmetric(a: Version, b: Version)
    ensures CompareVersions(a, b) == -CompareVersions(b, a)
  {
  }

  /** "Not after" is transitive. */
  lemma CompareVersionsTransitive(a: Version, b: Version, c: Version)
    requires CompareVersions(a, b) <= 0 && CompareVersions(b, c) <= 0
    ensures CompareVersions(a, c) <= 0
  {
  }

  /** The longest digit prefix of a rendered number followed by a suffix
      that does not start with a digit of any script is the number itself. */
  lemma {:induction false} LeadingDigitsOfNumber(d: string, suffix: string)
    requires AllDigits(d)
    requires suffix == [] || !IsDecimalDigit(suffix[0])
    ensures LeadingDigits(d + suffix) == d
  {
    if d == [] {
      assert d + suffix == suffix;
    } else {
      assert (d + suffix)[1..] == d[1..] + suffix;
      LeadingDigitsOfNumber(d[1..], suffix);
      assert [d[0]] + d[1..] == d;
    }
  }

  /** A rendered number contains no version separator. */
  lemma ShowNatHasNoSeparator(n: nat)
    ensures forall i :: 0 <= i < |ShowNat(n)| ==> ShowNat(n)[i] !in VersionSeparators
  {
    var s := ShowNat(n);
    forall i | 0 <= i < |s| ensures s[i] !in VersionSeparators {
      assert IsDigit(s[i]);
    }
  }

  /** "major" reads back as (major, 0, 0). */
  lemma ParseOneComponent(a: nat)
    requires a <= Int32Max
    ensures ParseUnityVersion(ShowNat(a)) == Version(a, 0, 0)
  {
    ShowNatHasNoSeparator(a);
    SplitJoin([ShowNat(a)], '.', VersionSeparators);
    ParseShowNat(a);
  }

  /** "major.minor" reads back as (major, minor, 0). */
  lemma ParseTwoComponents(a: nat, b: nat)
    requires a <= Int32Max && b <= Int32Max
    ensures ParseUnityVersion(ShowNat(a) + "." + ShowNat(b)) == Version(a, b, 0)
  {
    ShowNatHasNoSeparator(a);
    ShowNatHasNoSeparator(b);
    JoinTwo(ShowNat(a), ShowNat(b), '.');
    SplitJoin([ShowNat(a), ShowNat(b)], '.', VersionSeparators);
    ParseShowNat(a);
    ParseShowNat(b);
  }

  /** "major.minor.<last>" with no separator in `last` reads major and minor
      back and takes the patch from the leading digits of `last`. */
  lemma ParseTwoComponentsThen(a: nat, b: nat, last: string)
    requires a <= Int32Max && b <= Int32Max
    requires forall i :: 0 <= i < |last| ==> last[i] !in VersionSeparators
    ensures ParseUnityVersion(ShowNat(a) + "." + ShowNat(b) + "." + last)
            == Version(a, b, ParseIntOrZero(LeadingDigits(last)))
  {
    ShowNatHasNoSeparator(a);
    ShowNatHasNoSeparator(b);
    JoinThree(ShowNat(a), ShowNat(b), last, '.');
    SplitJoin([ShowNat(a), ShowNat(b), last], '.', VersionSeparators);
    ParseShowNat(a);
    ParseShowNat(b);
  }

  /** "major.minor.patch" followed by a release suffix such as "f1" reads back
      as (major, minor, patch): the suffix is dropped. */
  lemma ParseThreeComponents(a: nat, b: nat, c: nat, suffix: string)
    requires a <= Int32Max && b <= Int32Max && c <= Int32Max
    requires suffix == [] || !IsDecimalDigit(suffix[0])
    requires forall i :: 0 <= i < |suffix| ==> suffix[i] !in VersionSeparators
    ensures ParseUnityVersion(ShowNat(a) + "." + ShowNat(b) + "." + (ShowNat(c) + suffix))
            == Version(a, b, c)
  {
    var last := ShowNat(c) + suffix;
    ShowNatHasNoSeparator(c);
    assert forall i :: 0 <= i < |last| ==> last[i] !in VersionSeparators by {
      forall i | 0 <= i < |last| ensures last[i] !in VersionSeparators {
        if i >= |ShowNat(c)| { assert last[i] == suffix[i - |ShowNat(c)|]; }
      }
    }
    ParseTwoComponentsThen(a, b, last);
    LeadingDigitsOfNumber(ShowNat(c), suffix);
    ParseShowNat(c);
  }

  /** A release version with its build suffix parses to its numeric triple. */
  lemma ParseReleaseVersion()
    ensures ParseUnityVersion("2022.3.1f1") == Version(2022, 3, 1)
  {
    assert ShowNat(2022) == "2022";
    assert ShowNat(3) == "3";
    assert ShowNat(1) == "1";
    assert "2022.3.1f1" == ShowNat(2022) + "." + ShowNat(3) + "." + (ShowNat(1) + "f1");
    ParseThreeComponents(2022, 3, 1, "f1");
  }

  /** Text that is not a number parses to (0, 0, 0). */
  lemma ParseGarbage()
    ensures ParseUnityVersion("latest") == Version(0, 0, 0)
  {
    assert Split("latest", VersionSeparators) == ["latest"] by {
      SplitJoin(["latest"], '.', VersionSeparators);
    }
    assert !IsDigit("latest"[0]);
  }

  /** A patch whose digit run goes on into a digit of another script is
      taken whole by the digit prefix and then refused by the integer parser,
      so the patch is 0 rather than the ASCII digits before it. */
  lemma NonAsciiDigitVoidsPatch(a: nat, b: nat, c: nat, u: char)
    requires a <= Int32Max && b <= Int32Max
    requires IsDecimalDigit(u) && !IsDigit(u)
    ensures ParseUnityVersion(ShowNat(a) + "." + ShowNat(b) + "." + (ShowNat(c) + [u]))
            == Version(a, b, 0)
  {
    var last := ShowNat(c) + [u];
    ShowNatHasNoSeparator(c);
    assert forall i :: 0 <= i < |last| ==> last[i] !in VersionSeparators by {
      forall i | 0 <= i < |last| ensures last[i] !in VersionSeparators {
        if i == |ShowNat(c)| { assert last[i] == u; }
      }
    }
    assert AllDecimalDigits(last) by {
      forall i | 0 <= i < |last| ensures IsDecimalDigit(last[i]) {
        if i < |ShowNat(c)| { assert IsDigit(ShowNat(c)[i]); }
      }
    }
    LeadingDigitsOfDigits(last);
    assert !IsDigit(last[|last| - 1]);
    ParseTwoComponentsThen(a, b, last);
  }

  /** A digit string is its own longest digit prefix. */
  lemma {:induction false} LeadingDigitsOfDigits(d: string)
    requires AllDecimalDigits(d)
    ensures LeadingDigits(d) == d
  {
    if d != [] {
      LeadingDigitsOfDigits(d[1..]);
      assert [d[0]] + d[1..] == d;
    }
  }

  /** "2022.3.1" followed by ARABIC-INDIC DIGIT ONE has patch 0. */
  lemma ParseNonAsciiDigitPatch()
    ensures ParseUnityVersion("2022.3.1\U{0661}") == Version(2022, 3, 0)
  {
    assert IsDecimalDigit('\U{0661}') by {
      assert 0x660 in OtherDigitZeros;
    }
    assert ShowNat(2022) == "2022";
    assert ShowNat(3) == "3";
    assert ShowNat(1) == "1";
    assert "2022.3.1\U{0661}" == ShowNat(2022) + "." + ShowNat(3) + "." + (ShowNat(1) + ['\U{0661}']);
    NonAsciiDigitVoidsPatch(2022, 3, 1, '\U{0661}');
  }

  // ---------------------------------------------------------------- the table

  /** The migrations known to the database, in table order. */
  const Migrations: seq<ApiMigration> := [
    // Input System
    ApiMigration("UnityEngine.Input.GetAxis", "UnityEngine.InputSystem.InputAction", "2019.4", "Not Removed",
      "Input", "Legacy Input Manager is deprecated. Use the new Input System package."),
    ApiMigration("UnityEngine.Input.GetButton", "UnityEngine.InputSystem.InputAction", "2019.4", "Not Removed",
      "Input", "Legacy Input Manager is deprecated. Use the new Input System package."),
    ApiMigration("UnityEngine.Input.GetKey", "UnityEngine.InputSystem.Keyboard.current", "2019.4", "Not Removed",
      "Input", "Legacy Input Manager is deprecated. Use the new Input System package."),
    ApiMigration("UnityEngine.Input.GetMouseButton", "UnityEngine.InputSystem.Mouse.current", "2019.4", "Not Removed",
      "Input", "Legacy Input Manager is deprecated. Use the new Input System package."),
    ApiMigration("UnityEngine.Input.mousePosition", "UnityEngine.InputSystem.Mouse.current.position", "2019.4",
      "Not Removed", "Input", "Legacy Input Manager is deprecated. Use the new Input System package."),
    // Physics
    ApiMigration("Physics.IgnoreCollision (layer overloads)", "Physics.IgnoreLayerCollision", "2022.3", "Not Removed",
      "Physics", "Use layer-based collision matrix settings instead"),
    ApiMigration("Physics.autoSyncTransforms", "Physics.simulationMode", "2022.3", "Not Removed",
      "Physics", "Use Physics.simulationMode for controlling physics simulation"),
    // Rendering
    ApiMigration("Camera.SetTargetBuffers", "RenderTexture.SetRenderTarget", "2022.3", "Not Removed",
      "Rendering", "Use RenderTexture API or Scriptable Render Pipeline"),
    ApiMigration("RenderTexture.GetTemporary (with int parameters)",
      "RenderTexture.GetTemporary (with RenderTextureDescriptor)", "2022.3", "Not Removed",
      "Rendering", "Use RenderTextureDescriptor overload for clarity"),
    ApiMigration("Graphics.Blit (obsolete overloads)", "CommandBuffer.Blit", "2022.3", "Not Removed",
      "Rendering", "Use CommandBuffer API for better control and batching"),
    ApiMigration("OnRenderImage", "ScriptableRenderPass", "2022.3", "Not Removed",
      "Rendering", "OnRenderImage not supported in URP/HDRP. Use custom render passes."),
    // UI
    ApiMigration("UnityEngine.UI (legacy)", "UnityEngine.UIElements", "2022.3", "Not Removed",
      "UI", "UI Toolkit (UIElements) is the recommended UI system for editor and runtime"),
    // Networking
    ApiMigration("UnityEngine.Networking.NetworkTransport", "Unity.Netcode.NetworkManager", "2022.3", "6000.0",
      "Networking", "UNet is removed in Unity 6. Use Netcode for GameObjects or third-party solution"),
    ApiMigration("UnityEngine.Networking.NetworkManager", "Unity.Netcode.NetworkManager", "2022.3", "6000.0",
      "Networking", "UNet is removed in Unity 6. Use Netcode for GameObjects"),
    ApiMigration("UnityEngine.Networking.NetworkBehaviour", "Unity.Netcode.NetworkBehaviour", "2022.3", "6000.0",
      "Networking", "UNet is removed in Unity 6. Use Netcode for GameObjects"),
    // WWW / Web
    ApiMigration("UnityEngine.WWW", "UnityEngine.Networking.UnityWebRequest", "2018.4", "2022.3",
      "Networking", "WWW class is removed. Use UnityWebRequest"),
    // Scriptable Render Pipeline
    ApiMigration("UnityEngine.Rendering.SRPBatcher (manual calls)", "Automatic batching", "2022.3", "Not Removed",
      "Rendering", "SRP Batcher is automatic in URP/HDRP; manual calls are deprecated"),
    // Unity 6 specific
    ApiMigration("EditorUtility.DisplayDialog (some overloads)", "EditorUtility.DisplayDialog (updated signature)",
      "6000.0", "Not Removed", "Editor", "Some dialog overloads updated in Unity 6"),
    ApiMigration("AssetDatabase.Refresh (synchronous)", "AssetDatabase.RefreshSettings", "6000.0", "Not Removed",
      "Editor", "Consider async refresh patterns in Unity 6"),
    // XR
    ApiMigration("UnityEngine.XR.WSA", "UnityEngine.XR.OpenXR", "2022.3", "6000.0",
      "XR", "Windows Mixed Reality API deprecated. Use OpenXR"),
    ApiMigration("UnityEngine.VR.VRSettings", "UnityEngine.XR.XRSettings", "2019.4", "2022.3",
      "XR", "Legacy VR namespace removed. Use XR namespace"),
    ApiMigration("UnityEngine.XR.InputTracking", "UnityEngine.XR.InputDevices", "2019.4", "Not Removed",
      "XR", "InputTracking deprecated. Use InputDevices API"),
    // Coroutines / async
    ApiMigration("StartCoroutine (string method name)", "StartCoroutine (IEnumerator)", "2019.4", "Not Removed",
      "Coroutines", "String-based coroutine start is slower due to reflection. Use IEnumerator overload"),
    // Audio
    ApiMigration("AudioSource.PlayScheduled", "AudioSource.PlayScheduled (with DSP time)", "2022.3", "Not Removed",
      "Audio", "Ensure using DSP time for accurate audio scheduling"),
    // Animation
    ApiMigration("Animation component (legacy)", "Animator component", "2017.4", "Not Removed",
      "Animation", "Legacy Animation component is deprecated. Use Animator with AnimatorController"),
    // Particle System
    ApiMigration("ParticleSystem.Emit (obsolete overloads)", "ParticleSystem.Emit (EmitParams)", "2022.3",
      "Not Removed", "Particles", "Use EmitParams struct for more control over emitted particles"),
    // Scene management
    ApiMigration("Application.LoadLevel", "SceneManager.LoadScene", "2017.4", "2019.4",
      "SceneManagement", "Application.LoadLevel removed. Use SceneManager.LoadScene"),
    ApiMigration("Application.LoadLevelAsync", "SceneManager.LoadSceneAsync", "2017.4", "2019.4",
      "SceneManagement", "Application.LoadLevelAsync removed. Use SceneManager.LoadSceneAsync"),
    // PlayerPrefs
    ApiMigration("PlayerPrefs (for complex data)", "JsonUtility + File IO", "2019.4", "Not Removed",
      "Storage", "PlayerPrefs is not suitable for complex data. Use serialization to files."),
    // GUI
    ApiMigration("GUI.* and GUILayout.*", "UnityEngine.UIElements", "2022.3", "Not Removed",
      "UI", "IMGUI is legacy. Use UI Toolkit for editor UI and runtime UI.")
  ]

  /** Every field a query or a report reads is filled in. */
  predicate WellFormed(m: ApiMigration) {
    m.oldApi != [] && m.newApi != [] && m.minVersion != [] && m.category != []
  }

  /** `GetAllMigrations`: the whole table; it has 30 well-formed entries. */
  function GetAllMigrations(): (r: seq<ApiMigration>)
    ensures |r| == 30
    ensures forall k :: 0 <= k < |r| ==> WellFormed(r[k])
  {
    Migrations
  }

  /** The version texts at which the table's entries were deprecated. */
  const KnownMinVersions: set<string> := {"2017.4", "2018.4", "2019.4", "2022.3", "6000.0"}

  /** Every entry was deprecated at one of the known version texts. */
  lemma MinVersionsKnown()
    ensures forall k :: 0 <= k < |Migrations| ==> Migrations[k].minVersion in KnownMinVersions
  {
  }

  /** Each known version text parses to its (major, minor, 0) triple. */
  lemma ParseKnownMinVersion(t: string)
    requires t in KnownMinVersions
    ensures ParseUnityVersion(t) in {Version(2017, 4, 0), Version(2018, 4, 0), Version(2019, 4, 0),
                                     Version(2022, 3, 0), Version(6000, 0, 0)}
    ensures t == "6000.0" <==> ParseUnityVersion(t) == Version(6000, 0, 0)
  {
    if t == "2017.4" {
      assert ShowNat(2017) == "2017" && ShowNat(4) == "4";
      assert t == ShowNat(2017) + "." + ShowNat(4);
      ParseTwoComponents(2017, 4);
    } else if t == "2018.4" {
      assert ShowNat(2018) == "2018" && ShowNat(4) == "4";
      assert t == ShowNat(2018) + "." + ShowNat(4);
      ParseTwoComponents(2018, 4);
    } else if t == "2019.4" {
      assert ShowNat(2019) == "2019" && ShowNat(4) == "4";
      assert t == ShowNat(2019) + "." + ShowNat(4);
      ParseTwoComponents(2019, 4);
    } else if t == "2022.3" {
      assert ShowNat(2022) == "2022" && ShowNat(3) == "3";
      assert t == ShowNat(2022) + "." + ShowNat(3);
      ParseTwoComponents(2022, 3);
    } else {
      assert ShowNat(6000) == "6000" && ShowNat(0) == "0";
      assert t == ShowNat(6000) + "." + ShowNat(0);
      ParseTwoComponents(6000, 0);
    }
  }

  // ---------------------------------------------------------------- queries
  //
  // Each query reads the registry's private static list; the model passes it
  // as `table`, and the system always passes `Migrations`.

  /** The entry was deprecated at or before version `t`. */
  function DeprecatedBy(t: Version): ApiMigration -> bool {
    (m: ApiMigration) => CompareVersions(t, ParseUnityVersion(m.minVersion)) >= 0
  }

  /** `GetMigrationsForVersion`: the entries, in table order, whose parsed
      `minVersion` is not after the parsed target. The removal version plays
      no part. */
  function GetMigrationsForVersion(table: seq<ApiMigration>, targetVersion: string): (r: seq<ApiMigration>)
    ensures |r| <= |table|
    ensures forall m :: m in r <==>
      m in table && !VersionLess(ParseUnityVersion(targetVersion), ParseUnityVersion(m.minVersion))
  {
    Filter(table, DeprecatedBy(ParseUnityVersion(targetVersion)))
  }

  /** A later target keeps every entry of an earlier one, in the same order:
      the earlier result is the later one filtered further. */
  lemma GetMigrationsForVersionMonotone(table: seq<ApiMigration>, t1: string, t2: string)
    requires CompareVersions(ParseUnityVersion(t1), ParseUnityVersion(t2)) <= 0
    ensures GetMigrationsForVersion(table, t1)
            == Filter(GetMigrationsForVersion(table, t2), DeprecatedBy(ParseUnityVersion(t1)))
    ensures forall m :: m in GetMigrationsForVersion(table, t1) ==> m in GetMigrationsForVersion(table, t2)
  {
    var v1, v2 := ParseUnityVersion(t1), ParseUnityVersion(t2);
    forall k | 0 <= k < |table| && DeprecatedBy(v1)(table[k])
      ensures DeprecatedBy(v2)(table[k])
    {
      CompareVersionsTransitive(ParseUnityVersion(table[k].minVersion), v1, v2);
      CompareVersionsAntisymmetric(v1, ParseUnityVersion(table[k].minVersion));
      CompareVersionsAntisymmetric(v2, ParseUnityVersion(table[k].minVersion));
    }
    FilterNarrows(table, DeprecatedBy(v1), DeprecatedBy(v2));
  }

  /** Unity 6 sees the whole table, including the networking APIs removed in 6000.0. */
  lemma Unity6SeesEverything()
    ensures GetMigrationsForVersion(Migrations, "6000.0") == Migrations
  {
    MinVersionsKnown();
    ParseKnownMinVersion("6000.0");
    forall k | 0 <= k < |Migrations| ensures DeprecatedBy(Version(6000, 0, 0))(Migrations[k]) {
      ParseKnownMinVersion(Migrations[k].minVersion);
    }
    FilterAll(Migrations, DeprecatedBy(Version(6000, 0, 0)));
  }

  /** A target that does not parse is version (0, 0, 0), before every entry. */
  lemma GarbageTargetSeesNothing()
    ensures GetMigrationsForVersion(Migrations, "latest") == []
  {
    MinVersionsKnown();
    ParseGarbage();
    forall k | 0 <= k < |Migrations| ensures !DeprecatedBy(Version(0, 0, 0))(Migrations[k]) {
      ParseKnownMinVersion(Migrations[k].minVersion);
    }
    FilterNone(Migrations, DeprecatedBy(Version(0, 0, 0)));
  }

  /** The entry's old API contains `pattern`, ignoring case. */
  function OldApiMatches(pattern: string): ApiMigration -> bool {
    (m: ApiMigration) => ContainsIgnoreCase(m.oldApi, pattern)
  }

  /** `SearchByOldApi`: the entries, in table order, whose old API contains
      `pattern` ignoring case; none is left out. */
  function SearchByOldApi(table: seq<ApiMigration>, pattern: string): (r: seq<ApiMigration>)
    ensures forall m :: m in r <==> m in table && ContainsIgnoreCase(m.oldApi, pattern)
  {
    Filter(table, OldApiMatches(pattern))
  }

  /** The empty pattern occurs in every old API, so it finds the whole table. */
  lemma SearchEmptyFindsAll(table: seq<ApiMigration>)
    ensures SearchByOldApi(table, "") == table
  {
    forall k | 0 <= k < |table| ensures OldApiMatches("")(table[k]) {
      assert OccursAt(Lower(table[k].oldApi), Lower(""), 0);
    }
    FilterAll(table, OldApiMatches(""));
  }

  /** The entry's category equals `category`, ignoring case. */
  function InCategory(category: string): ApiMigration -> bool {
    (m: ApiMigration) => EqualsIgnoreCase(m.category, category)
  }

  /** `GetByCategory`: the entries, in table order, whose category equals
      `category` ignoring case; none is left out. */
  function GetByCategory(table: seq<ApiMigration>, category: string): (r: seq<ApiMigration>)
    ensures forall m :: m in r <==> m in table && EqualsIgnoreCase(m.category, category)
  {
    Filter(table, InCategory(category))
  }

  /** Spellings that differ only in case select the same entries. */
  lemma GetByCategoryIgnoresCase(table: seq<ApiMigration>, c1: string, c2: string)
    requires EqualsIgnoreCase(c1, c2)
    ensures GetByCategory(table, c1) == GetByCategory(table, c2)
  {
    FilterCongruent(table, InCategory(c1), InCategory(c2));
  }

  function CategoryOf(m: ApiMigration): string {
    m.category
  }

  function Itself(s: string): string {
    s
  }

  /** `GetCategories`: the distinct categories of the table, in ascending
      ordinal order. */
  function GetCategories(table: seq<ApiMigration>): seq<string>
  {
    SortBy(DistinctBy(Map(table, CategoryOf), Itself), Itself)
  }

  /** The categories are strictly ascending (so free of duplicates), and a
      string is listed exactly when some entry has it as its category. */
  lemma GetCategoriesSortedAndComplete(table: seq<ApiMigration>)
    ensures StrictlySortedBy(GetCategories(table), Itself)
    ensures forall c :: c in GetCategories(table) <==> exists k :: 0 <= k < |table| && table[k].category == c
  {
    var cats := Map(table, CategoryOf);
    var d := DistinctBy(cats, Itself);
    SortByDistinctIsStrict(d, Itself);
    SortByKeys(d, Itself);
    CategoriesListed(table);
  }

  /** A category is listed exactly when some entry has it. */
  lemma CategoriesListed(table: seq<ApiMigration>)
    ensures forall c :: c in GetCategories(table) <==> exists k :: 0 <= k < |table| && table[k].category == c
  {
    forall c ensures c in GetCategories(table) <==> exists k :: 0 <= k < |table| && table[k].category == c {
      CategoryListed(table, c);
    }
  }

  lemma CategoryListed(table: seq<ApiMigration>, c: string)
    ensures c in GetCategories(table) <==> exists k :: 0 <= k < |table| && table[k].category == c
  {
    var cats := Map(table, CategoryOf);
    var d := DistinctBy(cats, Itself);
    var r := SortBy(d, Itself);
    assert c in r <==> c in d by {
      assert multiset(r) == multiset(d);
      assert c in r <==> c in multiset(r);
      assert c in d <==> c in multiset(d);
    }
    if c in d {
      var i :| 0 <= i < |d| && d[i] == c;
      assert d[i] in cats;
      var j :| 0 <= j < |cats| && cats[j] == c;
      assert table[j].category == c;
    }
    if exists k :: 0 <= k < |table| && table[k].category == c {
      var k :| 0 <= k < |table| && table[k].category == c;
      KeyListed(cats, Itself, k);
      var i := KeyWitness(d, Itself, c);
    }
  }

  lemma KeyListed<T>(s: seq<T>, key: T -> string, i: nat)
    requires i < |s|
    ensures key(s[i]) in KeysOf(s, key)
  {
  }

  lemma KeyWitness<T>(s: seq<T>, key: T -> string, v: string) returns (i: nat)
    requires v in KeysOf(s, key)
    ensures i < |s| && key(s[i]) == v
  {
    i :| 0 <= i < |s| && key(s[i]) == v;
  }
}
