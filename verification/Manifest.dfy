/** The update manifest: src/manifest.c, from an already parsed JSON tree. */
module Manifest {
  import opened Wrappers

  datatype Json =
    | JOther
    | JString(text: string)
    | JArray(items: seq<Json>)
    | JObject(members: seq<(string, Json)>)

  datatype File = File(fileType: Option<string>, filename: Option<string>, sha256: Option<string>, path: Option<string>)

  datatype Release = Release(deviceId: Option<string>, name: Option<string>, version: Option<string>,
                             created: Option<string>, files: seq<File>)

  datatype Manifest = Manifest(version: Option<string>, created: Option<string>, releases: seq<Release>)

  /** What `calloc` leaves in an entry that is skipped. */
  const NO_FILE := File(None, None, None, None)
  const NO_RELEASE := Release(None, None, None, None, [])

  /** `cJSON_GetObjectItemCaseSensitive`: the first member with the name. */
  function Member(members: seq<(string, Json)>, key: string): Option<Json> {
    if members == [] then None
    else if members[0].0 == key then Some(members[0].1)
    else Member(members[1..], key)
  }

  function StringMember(j: Json, key: string): Option<string> {
    if !j.JObject? then None
    else match Member(j.members, key)
         case Some(JString(text)) => Some(text)
         case _ => None
  }

  /** The elements of an array member; anything else counts as no elements. */
  function ArrayMember(j: Json, key: string): seq<Json> {
    if !j.JObject? then []
    else match Member(j.members, key)
         case Some(JArray(items)) => items
         case _ => []
  }

  function FileOf(j: Json): File {
    File(StringMember(j, "file_type"), StringMember(j, "filename"), StringMember(j, "sha256"), StringMember(j, "path"))
  }

  function FilesOf(items: seq<Json>): (files: seq<File>)
    ensures |files| == |items| && forall i :: 0 <= i < |items| ==> files[i] == FileOf(items[i])
  {
    seq(|items|, i requires 0 <= i < |items| => FileOf(items[i]))
  }

  function ReleaseOf(j: Json): Release {
    Release(StringMember(j, "device_id"), StringMember(j, "release_name"), StringMember(j, "release_version"),
            StringMember(j, "created"), FilesOf(ArrayMember(j, "files")))
  }

  function ReleasesOf(items: seq<Json>): (releases: seq<Release>)
    ensures |releases| == |items| && forall i :: 0 <= i < |items| ==> releases[i] == ReleaseOf(items[i])
  {
    seq(|items|, i requires 0 <= i < |items| => ReleaseOf(items[i]))
  }

  function ManifestOf(root: Json): Option<Manifest> {
    if !root.JObject? then None
    else Some(Manifest(StringMember(root, "manifest_version"), StringMember(root, "created"),
                       ReleasesOf(ArrayMember(root, "releases"))))
  }

  // ---------- What the members are called ----------

  /** The first member of a name counts. */
  lemma {:induction false} MemberFirst(members: seq<(string, Json)>, key: string, i: nat)
    requires i <= |members| && forall j :: 0 <= j < i ==> members[j].0 != key
    requires i < |members| ==> members[i].0 == key
    ensures Member(members, key) == if i < |members| then Some(members[i].1) else None
  {
    if i > 0 { MemberFirst(members[1..], key, i - 1); }
  }

  lemma FileMembers(kind: string, name: string, hash: string, path: string)
    ensures FileOf(JObject([("file_type", JString(kind)), ("filename", JString(name)), ("sha256", JString(hash)), ("path", JString(path))]))
         == File(Some(kind), Some(name), Some(hash), Some(path))
    ensures FileOf(JObject([("file_type", JOther), ("filename", JOther), ("sha256", JOther)])) == NO_FILE
    ensures FileOf(JString(name)) == NO_FILE
  {
    hide Member;
    var members := [("file_type", JString(kind)), ("filename", JString(name)), ("sha256", JString(hash)), ("path", JString(path))];
    MemberFirst(members, "file_type", 0);
    MemberFirst(members, "filename", 1);
    MemberFirst(members, "sha256", 2);
    MemberFirst(members, "path", 3);
    var others := [("file_type", JOther), ("filename", JOther), ("sha256", JOther)];
    MemberFirst(others, "file_type", 0);
    MemberFirst(others, "filename", 1);
    MemberFirst(others, "sha256", 2);
    MemberFirst(others, "path", 3);
  }

  lemma ReleaseMembers(id: string, name: string, version: string, created: string, file: Json)
    ensures ReleaseOf(JObject([("device_id", JString(id)), ("release_name", JString(name)), ("release_version", JString(version)),
                               ("created", JString(created)), ("files", JArray([file]))]))
         == Release(Some(id), Some(name), Some(version), Some(created), [FileOf(file)])
  {
    hide Member, FileOf;
    var members := [("device_id", JString(id)), ("release_name", JString(name)), ("release_version", JString(version)),
                    ("created", JString(created)), ("files", JArray([file]))];
    MemberFirst(members, "device_id", 0);
    MemberFirst(members, "release_name", 1);
    MemberFirst(members, "release_version", 2);
    MemberFirst(members, "created", 3);
    MemberFirst(members, "files", 4);
    assert FilesOf([file]) == [FileOf(file)];
  }

  lemma ManifestMembers(version: string, created: string, release: Json)
    ensures ManifestOf(JObject([("manifest_version", JString(version)), ("created", JString(created)), ("releases", JArray([release]))]))
         == Some(Manifest(Some(version), Some(created), [ReleaseOf(release)]))
  {
    hide Member, ReleaseOf;
    var members := [("manifest_version", JString(version)), ("created", JString(created)), ("releases", JArray([release]))];
    MemberFirst(members, "manifest_version", 0);
    MemberFirst(members, "created", 1);
    MemberFirst(members, "releases", 2);
    assert ReleasesOf([release]) == [ReleaseOf(release)];
  }

  method LoadFiles(items: seq<Json>) returns (files: array<File>)
    ensures fresh(files) && files[..] == FilesOf(items)
  {
    files := new File[|items|](_ => NO_FILE);
    for k := 0 to |items|
      invariant forall i :: 0 <= i < k ==> files[i] == FileOf(items[i])
      invariant forall i :: k <= i < |items| ==> files[i] == NO_FILE
    {
      if !items[k].JObject? { continue; }
      files[k] := File(StringMember(items[k], "file_type"), StringMember(items[k], "filename"),
                       StringMember(items[k], "sha256"), StringMember(items[k], "path"));
    }
  }

  /** The array fill of `manifest_load`: entry `i` of the result comes from element `i`, and an
      element that is not an object leaves a blank entry in its place. */
  method LoadManifest(root: Json) returns (m: Option<Manifest>)
    ensures m == ManifestOf(root)
  {
    if !root.JObject? { return None; }
    var items := ArrayMember(root, "releases");
    var releases := new Release[|items|](_ => NO_RELEASE);
    for i := 0 to |items|
      invariant forall j :: 0 <= j < i ==> releases[j] == ReleaseOf(items[j])
      invariant forall j :: i <= j < |items| ==> releases[j] == NO_RELEASE
    {
      if !items[i].JObject? { continue; }
      var files := LoadFiles(ArrayMember(items[i], "files"));
      releases[i] := Release(StringMember(items[i], "device_id"), StringMember(items[i], "release_name"),
                             StringMember(items[i], "release_version"), StringMember(items[i], "created"), files[..]);
    }
    assert releases[..] == ReleasesOf(items);
    return Some(Manifest(StringMember(root, "manifest_version"), StringMember(root, "created"), releases[..]));
  }

  // ---------- Selection ----------

  predicate IsFor(r: Release, id: string) {
    r.deviceId == Some(id)
  }

  /** `i` is the first release for `id`. */
  predicate FirstFor(releases: seq<Release>, id: string, i: nat) {
    i < |releases| && IsFor(releases[i], id) && forall j :: 0 <= j < i ==> !IsFor(releases[j], id)
  }

  predicate NoneFor(releases: seq<Release>, id: string) {
    forall j :: 0 <= j < |releases| ==> !IsFor(releases[j], id)
  }

  predicate HasId(device: Option<string>) {
    device.Some? && device.value != ""
  }

  /** Release `i` is the one for this device: the first exact match or, when the device has no
      name or no release of its own, the first "default". */
  predicate Chosen(m: Manifest, device: Option<string>, i: nat) {
    || (HasId(device) && FirstFor(m.releases, device.value, i))
    || ((HasId(device) ==> NoneFor(m.releases, device.value)) && FirstFor(m.releases, "default", i))
  }

  /** At most one release can be the chosen one. */
  lemma ChosenUnique(m: Manifest, device: Option<string>, i: nat, j: nat)
    requires Chosen(m, device, i) && Chosen(m, device, j)
    ensures i == j
  {
  }

  /** The release of the device's own name is preferred to a "default" before it; without a name, with
      an empty one, or with one that has no release, the "default" is taken. */
  lemma OwnBeforeDefault(m: Manifest, id: string, other: string)
    requires id != "" && id != "default" && other != id && |m.releases| == 2
    requires m.releases[0].deviceId == Some("default") && m.releases[1].deviceId == Some(id)
    ensures Chosen(m, Some(id), 1) && Chosen(m, None, 0) && Chosen(m, Some(""), 0) && Chosen(m, Some(other), 0)
  {
  }

  /** An empty name is like none. */
  lemma EmptyIsNone(m: Manifest, i: nat)
    ensures Chosen(m, Some(""), i) <==> Chosen(m, None, i)
  {
  }

  /** Of several releases for a device the first one counts. */
  lemma FirstOfMany(m: Manifest, id: string, i: nat)
    requires id != "" && i < |m.releases| && m.releases[0].deviceId == m.releases[i].deviceId == Some(id)
    ensures Chosen(m, Some(id), i) <==> i == 0
  {
  }

  method FindFirst(releases: seq<Release>, id: string) returns (i: Option<nat>)
    ensures i.Some? ==> FirstFor(releases, id, i.value)
    ensures i.None? ==> NoneFor(releases, id)
  {
    for k := 0 to |releases|
      invariant forall j :: 0 <= j < k ==> !IsFor(releases[j], id)
    {
      if releases[k].deviceId.Some? && releases[k].deviceId.value == id { return Some(k); }
    }
    return None;
  }

  /** `manifest_select_release`. */
  method SelectRelease(m: Manifest, device: Option<string>) returns (i: Option<nat>)
    ensures i.Some? ==> Chosen(m, device, i.value)
    ensures i.None? ==> forall k :: !Chosen(m, device, k)
  {
    if m.releases == [] { return None; }
    i := None;
    if HasId(device) {
      i := FindFirst(m.releases, device.value);
      if i.Some? { return; }
    }
    i := FindFirst(m.releases, "default");
  }
}
