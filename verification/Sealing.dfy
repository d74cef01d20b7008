/** Sealing a staged backup and loading it again: manifest, signature file and payload tree. */
module Sealing {
  import opened Ordering
  import opened Wrappers
  import RetentionDisk

  type Bytes = seq<int>

  /******* Manifest *******/

  datatype VerificationState = Unverified | Verified
  datatype SignatureMetadata = SignatureMetadata(algorithm: string, keyId: string)

  datatype PayloadEncryption = PayloadEncryption(
    envelopeVersion: nat, algorithm: string, nonce: Option<Bytes>, wrappedKey: Option<Bytes>)

  datatype PayloadEntry = PayloadEntry(
    role: string, path: string, byteLength: nat, sha256: string, mediaType: string,
    encryption: Option<PayloadEncryption>)

  datatype Manifest = Manifest(
    formatVersion: nat, backupId: string, runId: string, sealedAt: Option<string>,
    labels: seq<string>, planVersion: nat, planSha256: string,
    payloads: seq<PayloadEntry>, state: VerificationState, signature: Option<SignatureMetadata>,
    warnings: seq<string>, layoutValid: bool)

  const CURRENT_FORMAT_VERSION: nat := 1
  const ENCRYPTED_FORMAT_VERSION: nat := 2

  predicate IsControl(c: char) { c < ' ' || '\U{7F}' <= c <= '\U{9F}' }

  predicate ValidLabel(s: string) { 1 <= Utf8Length(s) <= 128 && forall c | c in s :: !IsControl(c) }

  predicate IsHexDigit(c: char) { '0' <= c <= '9' || 'a' <= c <= 'f' || 'A' <= c <= 'F' }

  predicate IsSha256(s: string) { |s| == 64 && forall c | c in s :: IsHexDigit(c) }

  predicate ValidEncryption(e: PayloadEncryption) {
    && e.envelopeVersion == 1 && e.algorithm == "AES-256-GCM-CHUNKED"
    && e.nonce.Some? && |e.nonce.value| == 12
    && (e.wrappedKey.Some? ==> |e.wrappedKey.value| == 95)
  }

  predicate EndsWith(s: string, suffix: string) {
    |suffix| <= |s| && s[|s| - |suffix|..] == suffix
  }

  predicate ValidEntry(e: PayloadEntry) {
    && "payload/" <= e.path && ValidLabel(e.role) && ValidLabel(e.mediaType) && IsSha256(e.sha256)
    && (e.encryption.Some? ==> ValidEncryption(e.encryption.value) && EndsWith(e.path, ".enc"))
  }

  predicate DistinctPaths(payloads: seq<PayloadEntry>) {
    forall i, j | 0 <= i < j < |payloads| :: payloads[i].path != payloads[j].path
  }

  predicate ValidCommon(m: Manifest) {
    && (m.formatVersion == CURRENT_FORMAT_VERSION || m.formatVersion == ENCRYPTED_FORMAT_VERSION)
    && m.payloads != []
    && (forall l | l in m.labels :: ValidLabel(l))
    && m.planVersion != 0 && IsSha256(m.planSha256)
    && (forall e | e in m.payloads ::
          ValidEntry(e) && (e.encryption.Some? <==> m.formatVersion == ENCRYPTED_FORMAT_VERSION))
    && (forall w | w in m.warnings :: ValidLabel(w))
    && m.layoutValid
    && DistinctPaths(m.payloads)
  }

  predicate ValidForVerification(m: Manifest) {
    ValidCommon(m) && m.state == Unverified && m.sealedAt.None? && m.signature.None?
  }

  predicate ValidSealed(m: Manifest) {
    && ValidCommon(m) && m.signature.Some? && m.state == Verified && m.sealedAt.Some?
    && ValidLabel(m.signature.value.algorithm) && ValidLabel(m.signature.value.keyId)
  }

  /** What a manifest must say, requirement by requirement. */
  ghost predicate MeetsRules(m: Manifest) {
    && m.formatVersion in {1, 2} && m.planVersion >= 1 && m.layoutValid && IsDigest(m.planSha256)
    && (forall i | 0 <= i < |m.labels| :: IsShortText(m.labels[i]))
    && (forall i | 0 <= i < |m.warnings| :: IsShortText(m.warnings[i]))
    && |m.payloads| >= 1
    && (forall i | 0 <= i < |m.payloads| :: MeetsEntryRules(m.payloads[i], m.formatVersion))
    && forall i, j | 0 <= i < |m.payloads| && 0 <= j < |m.payloads| && m.payloads[i].path == m.payloads[j].path :: i == j
  }

  /** ... and each of its payload entries. */
  ghost predicate MeetsEntryRules(e: PayloadEntry, formatVersion: nat) {
    && |e.path| >= 8 && e.path[..8] == "payload/" && IsShortText(e.role) && IsShortText(e.mediaType) && IsDigest(e.sha256)
    && (formatVersion == 1 ==> e.encryption == None) && (formatVersion == 2 ==> e.encryption != None)
    && (e.encryption != None ==>
          && |e.path| >= 4 && e.path[|e.path| - 4..] == ".enc"
          && var n := e.encryption.value;
             && n.envelopeVersion == 1 && n.algorithm == "AES-256-GCM-CHUNKED"
             && n.nonce != None && |n.nonce.value| == 12
             && (n.wrappedKey != None ==> |n.wrappedKey.value| == 95))
  }

  /** A text of 1 to 128 bytes without control characters. */
  ghost predicate IsShortText(text: string) {
    && text != "" && Utf8Length(text) <= 128
    && forall k | 0 <= k < |text| :: 32 <= text[k] as int < 127 || 160 <= text[k] as int
  }

  ghost predicate IsDigest(s: string) {
    |s| == 64 && forall k | 0 <= k < 64 :: s[k] in "0123456789abcdefABCDEF"
  }

  /** The three validations of the source are these rules, before and after sealing. */
  lemma ValidityMeans(m: Manifest)
    ensures ValidForVerification(m) <==> MeetsRules(m) && m.state == Unverified && m.sealedAt == None && m.signature == None
    ensures ValidSealed(m) <==>
      && MeetsRules(m) && m.state == Verified && m.sealedAt != None && m.signature != None
      && IsShortText(m.signature.value.algorithm) && IsShortText(m.signature.value.keyId)
  {
    RulesAreCommon(m);
    if m.signature.Some? {
      LabelIsShort(m.signature.value.algorithm);
      LabelIsShort(m.signature.value.keyId);
    }
  }

  lemma LabelIsShort(text: string)
    ensures ValidLabel(text) <==> IsShortText(text)
  {
    assert Utf8Length(text) >= 1 <==> text != "";
    forall k | 0 <= k < |text| ensures IsControl(text[k]) <==> !(32 <= text[k] as int < 127 || 160 <= text[k] as int) {
    }
    if ValidLabel(text) {
      assert forall k | 0 <= k < |text| :: text[k] in text;
    }
  }

  lemma EntryRules(e: PayloadEntry, formatVersion: nat)
    requires formatVersion in {1, 2}
    ensures MeetsEntryRules(e, formatVersion)
      <==> ValidEntry(e) && (e.encryption.Some? <==> formatVersion == ENCRYPTED_FORMAT_VERSION)
  {
    LabelIsShort(e.role);
    LabelIsShort(e.mediaType);
    DigestIsSha256(e.sha256);
  }

  lemma DigestIsSha256(s: string)
    ensures IsSha256(s) <==> IsDigest(s)
  {
    if IsSha256(s) {
      assert forall k | 0 <= k < |s| :: s[k] in s;
    }
  }

  lemma RulesAreCommon(m: Manifest)
    ensures ValidCommon(m) <==> MeetsRules(m)
  {
    DigestIsSha256(m.planSha256);
    TextsAreShort(m.labels);
    TextsAreShort(m.warnings);
    if m.formatVersion in {1, 2} {
      forall i | 0 <= i < |m.payloads|
        ensures MeetsEntryRules(m.payloads[i], m.formatVersion) <==>
          ValidEntry(m.payloads[i]) && (m.payloads[i].encryption.Some? <==> m.formatVersion == ENCRYPTED_FORMAT_VERSION)
      {
        EntryRules(m.payloads[i], m.formatVersion);
      }
    }
    assert forall e :: e in m.payloads <==> exists i :: 0 <= i < |m.payloads| && m.payloads[i] == e;
  }

  lemma TextsAreShort(texts: seq<string>)
    ensures (forall l | l in texts :: ValidLabel(l)) <==> forall i | 0 <= i < |texts| :: IsShortText(texts[i])
  {
    forall l ensures ValidLabel(l) <==> IsShortText(l) {
      LabelIsShort(l);
    }
    assert forall i | 0 <= i < |texts| :: texts[i] in texts;
  }

  /** A manifest under construction. */
  class ManifestDraft {
    var data: Manifest

    constructor (initial: Manifest)
      ensures data == initial
    {
      data := initial;
    }

    /** Refuses a repeated path; the first encrypted payload switches the format version. */
    method AddPayload(entry: PayloadEntry) returns (ok: bool)
      modifies this
      ensures ok <==> forall e | e in old(data).payloads :: e.path != entry.path
      ensures !ok ==> data == old(data)
      ensures ok ==>
        && data.payloads == old(data).payloads + [entry]
        && data == old(data).(payloads := data.payloads, formatVersion := data.formatVersion)
        && data.formatVersion == (if entry.encryption.Some? && old(data).formatVersion == CURRENT_FORMAT_VERSION
                                  then ENCRYPTED_FORMAT_VERSION else old(data).formatVersion)
      ensures ok && DistinctPaths(old(data).payloads) ==> DistinctPaths(data.payloads)
    {
      if exists e :: e in data.payloads && e.path == entry.path {
        return false;
      }
      if entry.encryption.Some? && data.formatVersion == CURRENT_FORMAT_VERSION {
        data := data.(formatVersion := ENCRYPTED_FORMAT_VERSION);
      }
      assert forall i | 0 <= i < |data.payloads| :: data.payloads[i] in data.payloads;
      data := data.(payloads := data.payloads + [entry]);
      return true;
    }

    method PrepareForSeal(sealedAt: string, algorithm: string, keyId: string) returns (ok: bool)
      modifies this
      ensures ok <==> ValidForVerification(old(data)) && ValidLabel(algorithm) && ValidLabel(keyId)
      ensures !ok ==> data == old(data)
      ensures ok ==>
        && data == old(data).(sealedAt := Some(sealedAt), state := Verified,
                              signature := Some(SignatureMetadata(algorithm, keyId)))
        && ValidSealed(data)
    {
      if !ValidLabel(algorithm) || !ValidLabel(keyId) || !ValidForVerification(data) {
        return false;
      }
      data := data.(sealedAt := Some(sealedAt), state := Verified,
                    signature := Some(SignatureMetadata(algorithm, keyId)));
      return true;
    }
  }

  /******* Payload tree *******/

  datatype Entry = File(bytes: Bytes) | Directory(children: seq<Child>) | Link | Special
  datatype Child = Child(name: string, entry: Entry)

  const MAX_PAYLOAD_FILES: nat := 100_000
  const MAX_PAYLOAD_DEPTH: nat := 64

  /** The regular files under a directory by relative path, or `None` when the walk meets
      anything but files and directories or goes too deep. */
  function Walk(children: seq<Child>, prefix: string, depth: nat): Option<map<string, Bytes>>
    decreases children, 1
  {
    if depth > MAX_PAYLOAD_DEPTH then None else WalkEntries(children, prefix, depth)
  }

  function WalkEntries(children: seq<Child>, prefix: string, depth: nat): Option<map<string, Bytes>>
    decreases children, 0
  {
    if children == [] then Some(map[]) else
    var Child(name, entry) := children[0];
    assert children[0] in children;
    var here := match entry
      case File(bytes) => Some(map[prefix + name := bytes])
      case Directory(inner) => Walk(inner, prefix + name + "/", depth + 1)
      case _ => None;
    var rest := WalkEntries(children[1..], prefix, depth);
    if here.None? || rest.None? then None else Some(here.value + rest.value)
  }

  /******* What the walk sees *******/

  /** Somewhere under `children`, which lie at `prefix`, there is a regular file at `path` that
      holds `bytes`. */
  ghost predicate FileAt(children: seq<Child>, prefix: string, path: string, bytes: Bytes) {
    exists i :: 0 <= i < |children| && FileOf(children, i, prefix, path, bytes)
  }

  ghost predicate FileOf(children: seq<Child>, i: nat, prefix: string, path: string, bytes: Bytes)
    requires i < |children|
    decreases children, 0
  {
    var Child(name, entry) := children[i];
    assert children[i] in children;
    match entry
    case File(b) => path == prefix + name && bytes == b
    case Directory(inner) => exists j :: 0 <= j < |inner| && FileOf(inner, j, prefix + name + "/", path, bytes)
    case _ => false
  }

  /** No symbolic link and no special entry lies anywhere below. */
  ghost predicate OnlyFilesBelow(children: seq<Child>) {
    forall i | 0 <= i < |children| ::
      assert children[i] in children;
      match children[i].entry
      case File(_) => true
      case Directory(inner) => OnlyFilesBelow(inner)
      case _ => false
  }

  /** How many levels of directories lie below. */
  function Height(children: seq<Child>): nat {
    if children == [] then 0
    else
      assert children[0] in children;
      var here := if children[0].entry.Directory? then 1 + Height(children[0].entry.children) else 0;
      var rest := Height(children[1..]);
      if here > rest then here else rest
  }

  lemma FileAtSplits(children: seq<Child>, prefix: string, path: string, bytes: Bytes)
    requires children != []
    ensures FileAt(children, prefix, path, bytes)
      <==> FileOf(children, 0, prefix, path, bytes) || FileAt(children[1..], prefix, path, bytes)
  {
    var rest := children[1..];
    if i :| 0 <= i < |children| && FileOf(children, i, prefix, path, bytes) {
      if i > 0 {
        assert rest[i - 1] == children[i];
        SameChild(children, i, rest, i - 1, prefix, path, bytes);
      }
    }
    if j :| 0 <= j < |rest| && FileOf(rest, j, prefix, path, bytes) {
      assert rest[j] == children[j + 1];
      SameChild(children, j + 1, rest, j, prefix, path, bytes);
    }
  }

  lemma SameChild(a: seq<Child>, i: nat, b: seq<Child>, j: nat, prefix: string, path: string, bytes: Bytes)
    requires i < |a| && j < |b| && a[i] == b[j]
    ensures FileOf(a, i, prefix, path, bytes) <==> FileOf(b, j, prefix, path, bytes)
  {
  }

  /** The walk succeeds exactly on trees of files and directories that are not too deep, and it
      sees every file below and nothing else. */
  lemma {:induction false} WalkSeesTheTree(children: seq<Child>, prefix: string, depth: nat)
    requires depth <= MAX_PAYLOAD_DEPTH
    ensures Walk(children, prefix, depth).Some? <==> OnlyFilesBelow(children) && depth + Height(children) <= MAX_PAYLOAD_DEPTH
    ensures Walk(children, prefix, depth).Some? ==>
      SeesExactly(children, prefix, Walk(children, prefix, depth).value)
    decreases children
  {
    if children != [] {
      assert children[0] in children;
      var Child(name, entry) := children[0];
      WalkSeesTheTree(children[1..], prefix, depth);
      if entry.Directory? && depth < MAX_PAYLOAD_DEPTH {
        WalkSeesTheTree(entry.children, prefix + name + "/", depth + 1);
      }
      OnlyFilesSplits(children);
      HeightSplits(children);
      if Walk(children, prefix, depth).Some? {
        WalkSeesFirst(children, prefix, depth);
      }
    }
  }

  /** The step: what the walk sees of the first child, it sees as `FileAt` says. */
  lemma WalkSeesFirst(children: seq<Child>, prefix: string, depth: nat)
    requires depth <= MAX_PAYLOAD_DEPTH && children != [] && Walk(children, prefix, depth).Some?
    requires Walk(children[1..], prefix, depth).Some? ==> SeesExactly(children[1..], prefix, Walk(children[1..], prefix, depth).value)
    requires var Child(name, entry) := children[0];
      entry.Directory? && Walk(entry.children, prefix + name + "/", depth + 1).Some? ==>
        SeesExactly(entry.children, prefix + name + "/", Walk(entry.children, prefix + name + "/", depth + 1).value)
    ensures SeesExactly(children, prefix, Walk(children, prefix, depth).value)
  {
    var files := Walk(children, prefix, depth).value;
    forall path, bytes | FileAt(children, prefix, path, bytes) ensures path in files {
      FileAtSplits(children, prefix, path, bytes);
      FirstChild(children, prefix, path, bytes);
    }
    forall path | path in files ensures FileAt(children, prefix, path, files[path]) {
      FileAtSplits(children, prefix, path, files[path]);
      FirstChild(children, prefix, path, files[path]);
    }
  }

  ghost predicate SeesExactly(children: seq<Child>, prefix: string, files: map<string, Bytes>) {
    && (forall path, bytes | FileAt(children, prefix, path, bytes) :: path in files)
    && (forall path | path in files :: FileAt(children, prefix, path, files[path]))
  }

  lemma DirectoryHolds(children: seq<Child>, i: nat, prefix: string, path: string, bytes: Bytes)
    requires i < |children| && children[i].entry.Directory?
    ensures FileOf(children, i, prefix, path, bytes)
      <==> FileAt(children[i].entry.children, prefix + children[i].name + "/", path, bytes)
  {
  }

  lemma FirstChild(children: seq<Child>, prefix: string, path: string, bytes: Bytes)
    requires children != []
    ensures var Child(name, entry) := children[0];
      FileOf(children, 0, prefix, path, bytes) <==>
        || (entry.File? && path == prefix + name && bytes == entry.bytes)
        || (entry.Directory? && FileAt(entry.children, prefix + name + "/", path, bytes))
  {
  }

  lemma HeightSplits(children: seq<Child>)
    requires children != []
    ensures Height(children) >= Height(children[1..])
    ensures children[0].entry.Directory? ==> Height(children) >= 1 + Height(children[0].entry.children)
    ensures Height(children) == Height(children[1..]) ||
      (children[0].entry.Directory? && Height(children) == 1 + Height(children[0].entry.children))
  {
  }

  lemma OnlyFilesSplits(children: seq<Child>)
    requires children != []
    ensures OnlyFilesBelow(children) <==>
      && (children[0].entry.File? || (children[0].entry.Directory? && OnlyFilesBelow(children[0].entry.children)))
      && OnlyFilesBelow(children[1..])
  {
    assert forall i | 1 <= i < |children| :: children[i] == children[1..][i - 1];
  }

  /** Names as a directory has them: without '/', and no two alike. */
  ghost predicate WellNamed(children: seq<Child>) {
    && (forall i | 0 <= i < |children| :: '/' !in children[i].name)
    && (forall i, j | 0 <= i < j < |children| :: children[i].name != children[j].name)
    && (forall i | 0 <= i < |children| ::
          assert children[i] in children;
          children[i].entry.Directory? ==> WellNamed(children[i].entry.children))
  }

  lemma PathGoesThroughChild(children: seq<Child>, i: nat, prefix: string, path: string, bytes: Bytes)
    requires i < |children| && FileOf(children, i, prefix, path, bytes)
    ensures var here := prefix + children[i].name; here <= path && (path == here || path[|here|] == '/')
    decreases children
  {
    var Child(name, entry) := children[i];
    assert children[i] in children;
    if entry.Directory? {
      var j :| 0 <= j < |entry.children| && FileOf(entry.children, j, prefix + name + "/", path, bytes);
      PathGoesThroughChild(entry.children, j, prefix + name + "/", path, bytes);
    }
  }

  /** Where names are as in a directory, a path leads to one file. */
  lemma OneFilePerPath(children: seq<Child>, prefix: string, path: string, one: Bytes, two: Bytes)
    requires WellNamed(children) && FileAt(children, prefix, path, one) && FileAt(children, prefix, path, two)
    ensures one == two
    decreases children
  {
    var i :| 0 <= i < |children| && FileOf(children, i, prefix, path, one);
    var j :| 0 <= j < |children| && FileOf(children, j, prefix, path, two);
    PathGoesThroughChild(children, i, prefix, path, one);
    PathGoesThroughChild(children, j, prefix, path, two);
    SameFirstName(prefix, children[i].name, children[j].name, path);
    assert i == j && children[i] in children;
    var Child(name, entry) := children[i];
    if entry.Directory? {
      DirectoryHolds(children, i, prefix, path, one);
      DirectoryHolds(children, i, prefix, path, two);
      OneFilePerPath(entry.children, prefix + name + "/", path, one, two);
    }
  }

  lemma SameFirstName(prefix: string, a: string, b: string, path: string)
    requires '/' !in a && '/' !in b && prefix + a <= path && prefix + b <= path
    requires path == prefix + a || path[|prefix + a|] == '/'
    requires path == prefix + b || path[|prefix + b|] == '/'
    ensures a == b
  {
    assert a == path[|prefix|..|prefix + a|] && b == path[|prefix|..|prefix + b|];
    assert forall k | 0 <= k < |a| :: path[|prefix| + k] == a[k] && a[k] != '/';
    assert forall k | 0 <= k < |b| :: path[|prefix| + k] == b[k] && b[k] != '/';
  }

  ghost predicate HoldsEntry(hash: Bytes -> string, children: seq<Child>, e: PayloadEntry) {
    exists bytes ::
      FileAt(children, "payload/", e.path, bytes) && |bytes| == e.byteLength && hash(bytes) == ToLower(e.sha256)
  }

  /** The payload directory holds nothing but the listed files, all of them, each with its length
      and digest. */
  ghost predicate HoldsExactly(hash: Bytes -> string, payload: Entry, payloads: seq<PayloadEntry>) {
    && payload.Directory? && OnlyFilesBelow(payload.children) && Height(payload.children) <= 64
    && (forall path, bytes | FileAt(payload.children, "payload/", path, bytes) ::
          exists i :: 0 <= i < |payloads| && payloads[i].path == path)
    && (forall i | 0 <= i < |payloads| :: HoldsEntry(hash, payload.children, payloads[i]))
    && |(set i | 0 <= i < |payloads| :: payloads[i].path)| <= 100_000
  }

  /** On any directory tree, the check of the payload is exactly that. */
  lemma PayloadCheckIsExact(hash: Bytes -> string, payload: Entry, payloads: seq<PayloadEntry>)
    requires payload.Directory? ==> WellNamed(payload.children)
    ensures PayloadTreeMatches(hash, payload, payloads) <==> HoldsExactly(hash, payload, payloads)
  {
    if payload.Directory? {
      var walk := Walk(payload.children, "payload/", 0);
      WalkSeesTheTree(payload.children, "payload/", 0);
      if walk.Some? {
        var files := walk.value;
        forall path, bytes ensures FileAt(payload.children, "payload/", path, bytes) <==> IsIn(files, path, bytes) {
          if FileAt(payload.children, "payload/", path, bytes) {
            OneFilePerPath(payload.children, "payload/", path, bytes, files[path]);
          }
        }
        if PayloadTreeMatches(hash, payload, payloads) {
          MatchingHolds(hash, payload, payloads, files);
        }
        if HoldsExactly(hash, payload, payloads) {
          HoldingMatches(hash, payload, payloads, files);
        }
      }
    }
  }

  predicate IsIn(files: map<string, Bytes>, path: string, bytes: Bytes) { path in files && files[path] == bytes }

  lemma MatchingHolds(hash: Bytes -> string, payload: Entry, payloads: seq<PayloadEntry>, files: map<string, Bytes>)
    requires PayloadTreeMatches(hash, payload, payloads) && Walk(payload.children, "payload/", 0) == Some(files)
    requires OnlyFilesBelow(payload.children) && Height(payload.children) <= 64
    requires forall path, bytes :: FileAt(payload.children, "payload/", path, bytes) <==> IsIn(files, path, bytes)
    ensures HoldsExactly(hash, payload, payloads)
  {
    var listed := set i | 0 <= i < |payloads| :: payloads[i].path;
    assert |files| == |files.Keys| == |listed|;
    forall path, bytes | FileAt(payload.children, "payload/", path, bytes)
      ensures exists i :: 0 <= i < |payloads| && payloads[i].path == path
    {
      assert IsIn(files, path, bytes) && path in listed;
    }
    forall i | 0 <= i < |payloads| ensures HoldsEntry(hash, payload.children, payloads[i]) {
      assert IsIn(files, payloads[i].path, files[payloads[i].path]);
    }
  }

  lemma HoldingMatches(hash: Bytes -> string, payload: Entry, payloads: seq<PayloadEntry>, files: map<string, Bytes>)
    requires HoldsExactly(hash, payload, payloads) && Walk(payload.children, "payload/", 0) == Some(files)
    requires forall path, bytes :: FileAt(payload.children, "payload/", path, bytes) <==> IsIn(files, path, bytes)
    ensures PayloadTreeMatches(hash, payload, payloads)
  {
    var listed := set i | 0 <= i < |payloads| :: payloads[i].path;
    forall i | 0 <= i < |payloads|
      ensures var e := payloads[i];
        e.path in files && |files[e.path]| == e.byteLength && hash(files[e.path]) == ToLower(e.sha256)
    {
      assert HoldsEntry(hash, payload.children, payloads[i]);
      var bytes :| FileAt(payload.children, "payload/", payloads[i].path, bytes)
        && |bytes| == payloads[i].byteLength && hash(bytes) == ToLower(payloads[i].sha256);
      assert IsIn(files, payloads[i].path, bytes);
    }
    forall path | path in files ensures path in listed {
      assert IsIn(files, path, files[path]);
    }
    assert files.Keys == listed && |files| == |files.Keys|;
  }

  /** A backup directory: its payload tree and its metadata files; the report counts payloads. */
  datatype BackupTree = BackupTree(payload: Entry, manifest: Option<Bytes>, signature: Option<Bytes>, report: Option<nat>)

  function ToLower(s: string): (r: string)
    ensures |r| == |s|
    ensures forall i | 0 <= i < |s| :: r[i] as int == s[i] as int + (if 65 <= s[i] as int <= 90 then 32 else 0)
  {
    seq(|s|, i requires 0 <= i < |s| => if 'A' <= s[i] <= 'Z' then s[i] - 'A' + 'a' else s[i])
  }

  /** The tree holds exactly the files the manifest lists, each with its length and digest. */
  predicate PayloadTreeMatches(hash: Bytes -> string, payload: Entry, payloads: seq<PayloadEntry>) {
    payload.Directory? &&
    var files := Walk(payload.children, "payload/", 0);
    && files.Some? && |files.value| <= MAX_PAYLOAD_FILES
    && files.value.Keys == (set i | 0 <= i < |payloads| :: payloads[i].path)
    && forall i | 0 <= i < |payloads| ::
         var e := payloads[i];
         e.path in files.value && |files.value[e.path]| == e.byteLength && hash(files.value[e.path]) == ToLower(e.sha256)
  }

  /******* Signature file *******/

  datatype DiskSignature = DiskSignature(algorithm: string, keyId: string, signature: string)

  function HexDigit(n: int): (c: char)
    requires 0 <= n < 16
    ensures IsHexDigit(c) && HexValue(c) == n && c != '+'
  {
    if n < 10 then ('0' as int + n) as char else ('a' as int + n - 10) as char
  }

  function HexValue(c: char): int
    requires IsHexDigit(c)
  {
    if '0' <= c <= '9' then c as int - '0' as int
    else if 'a' <= c <= 'f' then c as int - 'a' as int + 10
    else c as int - 'A' as int + 10
  }

  predicate AreBytes(s: Bytes) { forall i | 0 <= i < |s| :: 0 <= s[i] < 256 }

  function Hex(s: Bytes): string
    requires AreBytes(s)
  {
    if s == [] then "" else [HexDigit(s[0] / 16), HexDigit(s[0] % 16)] + Hex(s[1..])
  }

  /** `u8::from_str_radix` on two characters; it also takes a sign before one digit. */
  function PairValue(a: char, b: char): Option<int> {
    if IsHexDigit(a) && IsHexDigit(b) then Some(HexValue(a) * 16 + HexValue(b))
    else if a == '+' && IsHexDigit(b) then Some(HexValue(b))
    else None
  }

  function DecodeHex(s: string): Option<Bytes> {
    if |s| % 2 != 0 then None
    else if s == "" then Some([])
    else
      var first, rest := PairValue(s[0], s[1]), DecodeHex(s[2..]);
      if first.None? || rest.None? then None else Some([first.value] + rest.value)
  }

  /** The plan identifiers of the repository are exactly the digests of 32 bytes, written so. */
  lemma DigestsAreHex(s: string)
    ensures RetentionDisk.IsHexDigest(s) <==> exists digest | AreBytes(digest) && |digest| == 32 :: Hex(digest) == s
  {
    forall digest | AreBytes(digest) && |digest| == 32 ensures RetentionDisk.IsHexDigest(Hex(digest)) {
      HexIsLowerCase(digest);
    }
    if RetentionDisk.IsHexDigest(s) {
      var digest := LowerCaseIsHex(s);
      assert Hex(digest) == s;
    }
  }

  predicate IsLowerHex(c: char) { '0' <= c <= '9' || 'a' <= c <= 'f' }

  lemma {:induction false} HexIsLowerCase(s: Bytes)
    requires AreBytes(s)
    ensures |Hex(s)| == 2 * |s| && forall i | 0 <= i < |Hex(s)| :: IsLowerHex(Hex(s)[i])
  {
    if s != [] {
      HexIsLowerCase(s[1..]);
    }
  }

  lemma ValueReadsBack(a: char, b: char, n: int)
    requires IsLowerHex(a) && IsLowerHex(b) && n == HexValue(a) * 16 + HexValue(b)
    ensures 0 <= n < 256 && HexDigit(n / 16) == a && HexDigit(n % 16) == b
  {
    LowerDigit(a);
    LowerDigit(b);
  }

  lemma LowerDigit(c: char)
    requires IsLowerHex(c)
    ensures 0 <= HexValue(c) < 16 && HexDigit(HexValue(c)) == c
  {
  }

  lemma {:induction false} LowerCaseIsHex(s: string) returns (digest: Bytes)
    requires |s| % 2 == 0 && forall i | 0 <= i < |s| :: IsLowerHex(s[i])
    ensures AreBytes(digest) && |digest| == |s| / 2 && Hex(digest) == s
  {
    if s == "" {
      digest := [];
    } else {
      var rest := LowerCaseIsHex(s[2..]);
      var n := HexValue(s[0]) * 16 + HexValue(s[1]);
      ValueReadsBack(s[0], s[1], n);
      digest := [n] + rest;
      assert digest[1..] == rest;
      assert s == [s[0], s[1]] + s[2..];
    }
  }

  lemma {:induction false} HexRoundTrip(s: Bytes)
    requires AreBytes(s)
    ensures DecodeHex(Hex(s)) == Some(s)
  {
    if s != [] {
      HexRoundTrip(s[1..]);
      EvenHex(s[1..]);
      PairReadsBack(s[0], Hex(s[1..]));
      assert s == [s[0]] + s[1..];
    }
  }

  /** One byte, written as two digits in front of more text, is read first. */
  lemma PairReadsBack(n: int, rest: string)
    requires 0 <= n < 256 && |rest| % 2 == 0
    ensures var text := [HexDigit(n / 16), HexDigit(n % 16)] + rest;
      DecodeHex(text) == if DecodeHex(rest).None? then None else Some([n] + DecodeHex(rest).value)
  {
    var text := [HexDigit(n / 16), HexDigit(n % 16)] + rest;
    assert text[2..] == rest && text[0] == HexDigit(n / 16) && text[1] == HexDigit(n % 16);
    assert PairValue(text[0], text[1]) == Some(n);
  }

  /** The `i`-th pair of characters of `s` can be read: two hex digits, or a plus sign and one. */
  predicate IsPairAt(s: string, i: nat)
    requires 2 * i + 1 < |s|
  {
    IsHexDigit(s[2 * i + 1]) && (IsHexDigit(s[2 * i]) || s[2 * i] == '+')
  }

  function PairAt(s: string, i: nat): int
    requires 2 * i + 1 < |s|
  {
    16 * DigitOf(s[2 * i]) + DigitOf(s[2 * i + 1])
  }

  predicate AllPairs(s: string) { |s| % 2 == 0 && forall i: nat | i < |s| / 2 :: IsPairAt(s, i) }

  /** The decoder reads exactly such pairs, digits of either case. */
  lemma {:induction false} DecodesPairs(s: string)
    ensures DecodeHex(s).Some? <==> AllPairs(s)
    ensures DecodeHex(s).Some? ==>
      |DecodeHex(s).value| == |s| / 2 && forall i: nat | i < |s| / 2 :: DecodeHex(s).value[i] == PairAt(s, i)
    decreases |s|
  {
    if |s| % 2 == 0 && s != "" {
      var t := s[2..];
      DecodesPairs(t);
      PairsSplit(s);
      FirstPair(s);
      if DecodeHex(s).Some? {
        forall i: nat | i < |s| / 2 ensures DecodeHex(s).value[i] == PairAt(s, i) {
          if i > 0 {
            assert DecodeHex(t).value[i - 1] == PairAt(t, i - 1);
          }
        }
      }
    }
  }

  lemma PairsSplit(s: string)
    requires |s| >= 2
    ensures AllPairs(s) <==> IsPairAt(s, 0) && AllPairs(s[2..])
    ensures forall i: nat | i < |s[2..]| / 2 :: PairAt(s[2..], i) == PairAt(s, i + 1)
  {
    var t := s[2..];
    forall i: nat | i < |t| / 2 ensures IsPairAt(t, i) == IsPairAt(s, i + 1) && PairAt(t, i) == PairAt(s, i + 1) {
      assert t[2 * i] == s[2 * i + 2] && t[2 * i + 1] == s[2 * i + 3];
    }
    forall i: nat | 1 <= i < |s| / 2 ensures IsPairAt(s, i) == IsPairAt(t, i - 1) {
      assert i - 1 < |t| / 2;
    }
  }

  lemma FirstPair(s: string)
    requires |s| >= 2
    ensures PairValue(s[0], s[1]).Some? <==> IsPairAt(s, 0)
    ensures IsPairAt(s, 0) ==> PairValue(s[0], s[1]) == Some(PairAt(s, 0))
  {
    if IsPairAt(s, 0) {
      HexValueIsPlace(s[1]);
      if s[0] != '+' {
        HexValueIsPlace(s[0]);
      }
    }
  }

  lemma HexValueIsPlace(c: char)
    requires IsHexDigit(c)
    ensures HexValue(c) == DigitOf(c)
  {
    if c <= '9' {
      assert c in "0123456789";
    } else if c <= 'F' {
      assert c in "ABCDEF";
    } else {
      assert c in "abcdef";
    }
  }

  /** The value of a hex digit, by its place in the row of digits; a plus sign counts nothing. */
  function DigitOf(c: char): int {
    match c
    case '1' => 1 case '2' => 2 case '3' => 3 case '4' => 4 case '5' => 5
    case '6' => 6 case '7' => 7 case '8' => 8 case '9' => 9
    case 'a' => 10 case 'b' => 11 case 'c' => 12 case 'd' => 13 case 'e' => 14 case 'f' => 15
    case 'A' => 10 case 'B' => 11 case 'C' => 12 case 'D' => 13 case 'E' => 14 case 'F' => 15
    case _ => 0
  }

  lemma {:induction false} EvenHex(s: Bytes)
    requires AreBytes(s)
    ensures |Hex(s)| % 2 == 0
  {
    if s != [] {
      EvenHex(s[1..]);
    }
  }

  /******* Sealing and loading *******/

  /** JSON as an encoder and a decoder that undoes it. */
  datatype Codec<!T> = Codec(encode: T -> Bytes, decode: Bytes -> Option<T>)

  ghost predicate Lawful<T(!new)>(c: Codec<T>) { forall x :: c.decode(c.encode(x)) == Some(x) }

  /** Foreign operations, as functions. */
  datatype Foreign = Foreign(
    hash: Bytes -> string, manifests: Codec<Manifest>, signatures: Codec<DiskSignature>)

  ghost predicate LawfulForeign(f: Foreign) { Lawful(f.manifests) && Lawful(f.signatures) }

  datatype Signer = Signer(
    algorithm: string, keyId: string, sign: Bytes -> Option<Bytes>, verify: (Bytes, Bytes) -> bool)

  type Verifier = (string, string, Bytes, Bytes) -> bool

  /** The verifier accepts, under the signer's names, whatever the signer itself verifies. */
  ghost predicate Matches(verifier: Verifier, signer: Signer) {
    forall message, signature ::
      signer.verify(message, signature) ==> verifier(signer.algorithm, signer.keyId, message, signature)
  }

  const SIGNATURE_ALGORITHM: string := "Ed25519"

  /** `load_verified_manifest` on the directory `name`. */
  function LoadVerified(f: Foreign, name: string, tree: BackupTree, verifier: Verifier): Option<Manifest> {
    if !RetentionDisk.IsIdentifier(name) || tree.manifest.None? then None else
    var decoded := f.manifests.decode(tree.manifest.value);
    if decoded.None? then None else
    var m := decoded.value;
    if !ValidSealed(m) || m.backupId != name || f.manifests.encode(m) != tree.manifest.value then None
    else if !SignatureAccepted(f, m, tree, verifier) then None
    else if !PayloadTreeMatches(f.hash, tree.payload, m.payloads) then None
    else Some(m)
  }

  predicate SignatureAccepted(f: Foreign, m: Manifest, tree: BackupTree, verifier: Verifier)
    requires m.signature.Some? && tree.manifest.Some?
  {
    tree.signature.Some? &&
    var disk := f.signatures.decode(tree.signature.value);
    disk.Some? &&
    var raw := DecodeHex(disk.value.signature);
    && disk.value.algorithm == m.signature.value.algorithm && disk.value.keyId == m.signature.value.keyId
    && raw.Some? && verifier(disk.value.algorithm, disk.value.keyId, tree.manifest.value, raw.value)
  }

  class StagedBackup {
    var tree: BackupTree
    /** How many writes have failed. */
    var faults: nat
    const runId: string

    constructor (runId: string, tree: BackupTree)
      ensures this.runId == runId && this.tree == tree
    {
      this.runId := runId;
      this.tree := tree;
    }

    /** One atomic file replacement. */
    method Write(next: BackupTree) returns (ok: bool)
      modifies `tree, `faults
      ensures ok <==> faults == old(faults)
      ensures faults >= old(faults) && tree in {old(tree), next}
      ensures ok ==> tree == next
    {
      if * {
        tree := next;
        if * {
          return true;
        }
      }
      faults := faults + 1;
      return false;
    }

    /** `publish_metadata`: manifest, signature file and report, in this order. */
    method PublishMetadata(f: Foreign, m: Manifest, canonical: Bytes, signature: Bytes) returns (ok: bool)
      requires m.signature.Some? && AreBytes(signature)
      modifies `tree, `faults
      ensures ok <==> faults == old(faults)
      ensures faults >= old(faults) && tree.payload == old(tree).payload
      ensures ok ==>
        && tree.manifest == Some(canonical) && tree.report == Some(|m.payloads|)
        && tree.signature ==
             Some(f.signatures.encode(DiskSignature(SIGNATURE_ALGORITHM, m.signature.value.keyId, Hex(signature))))
    {
      var envelope := DiskSignature(SIGNATURE_ALGORITHM, m.signature.value.keyId, Hex(signature));
      ok := Write(tree.(manifest := Some(canonical)));
      if !ok {
        return;
      }
      ok := Write(tree.(signature := Some(f.signatures.encode(envelope))));
      if !ok {
        return;
      }
      ok := Write(tree.(report := Some(|m.payloads|)));
    }

    /** All that precedes the first write: the checks, and the draft turned into a signed manifest. */
    method PrepareAndSign(f: Foreign, draft: ManifestDraft, sealedAt: string, signer: Signer) returns (r: Option<Bytes>)
      modifies draft
      ensures r.Some? <==> CanSeal(f, old(draft.data), runId, tree, sealedAt, signer)
      ensures r.Some? ==>
        && ValidForVerification(old(draft.data)) && ValidSealed(draft.data) && MeetsRules(draft.data)
        && draft.data == old(draft.data).(sealedAt := Some(sealedAt), state := Verified,
             signature := Some(SignatureMetadata(SIGNATURE_ALGORITHM, signer.keyId)))
        && AreBytes(r.value) && signer.verify(f.manifests.encode(draft.data), r.value)
    {
      AlgorithmIsLabel();
      if draft.data.runId != runId || signer.algorithm != SIGNATURE_ALGORITHM {
        return None;
      }
      if !ValidForVerification(draft.data) || !PayloadTreeMatches(f.hash, tree.payload, draft.data.payloads) {
        return None;
      }
      var prepared := draft.PrepareForSeal(sealedAt, signer.algorithm, signer.keyId);
      if !prepared {
        return None;
      }
      var canonical := f.manifests.encode(draft.data);
      var signature := signer.sign(canonical);
      if signature.None? || !AreBytes(signature.value) || !signer.verify(canonical, signature.value) {
        return None;
      }
      ValidityMeans(draft.data);
      r := signature;
    }

    /** `seal_inner` up to the publishing rename. */
    method Seal(f: Foreign, draft: ManifestDraft, sealedAt: string, signer: Signer) returns (ok: bool)
      requires RetentionDisk.IsIdentifier(draft.data.backupId)
      modifies this, draft
      ensures tree.payload == old(tree.payload) && faults >= old(faults)
      ensures ok ==>
        && ValidForVerification(old(draft.data))
        && draft.data == old(draft.data).(sealedAt := Some(sealedAt), state := Verified,
             signature := Some(SignatureMetadata(SIGNATURE_ALGORITHM, signer.keyId)))
      ensures ok && LawfulForeign(f) ==>
        forall verifier | Matches(verifier, signer) ::
          LoadVerified(f, draft.data.backupId, tree, verifier) == Some(draft.data)
      ensures ok <==> faults == old(faults) && CanSeal(f, old(draft.data), runId, old(tree), sealedAt, signer)
      ensures ok ==>
        tree.report == Some(|draft.data.payloads|) && tree.manifest == Some(f.manifests.encode(draft.data)) && draft.data.runId == runId
      ensures ok ==> MeetsRules(draft.data) && PayloadTreeMatches(f.hash, tree.payload, draft.data.payloads)
      ensures !CanSeal(f, old(draft.data), runId, old(tree), sealedAt, signer) ==> tree == old(tree)
    {
      var signature := PrepareAndSign(f, draft, sealedAt, signer);
      if signature.None? {
        return false;
      }
      var canonical := f.manifests.encode(draft.data);
      ok := PublishMetadata(f, draft.data, canonical, signature.value);
      if ok && LawfulForeign(f) {
        SealedLoads(f, draft.data, tree, signer, signature.value);
      }
    }
  }

  /** What the three files must be for loading to accept them. */
  lemma SealedLoads(f: Foreign, m: Manifest, tree: BackupTree, signer: Signer, signature: Bytes)
    requires LawfulForeign(f) && RetentionDisk.IsIdentifier(m.backupId) && ValidSealed(m)
    requires m.signature.value == SignatureMetadata(signer.algorithm, signer.keyId) && signer.algorithm == SIGNATURE_ALGORITHM
    requires PayloadTreeMatches(f.hash, tree.payload, m.payloads)
    requires AreBytes(signature) && signer.verify(f.manifests.encode(m), signature)
    requires tree.manifest == Some(f.manifests.encode(m))
    requires tree.signature == Some(f.signatures.encode(DiskSignature(SIGNATURE_ALGORITHM, signer.keyId, Hex(signature))))
    ensures forall verifier | Matches(verifier, signer) :: LoadVerified(f, m.backupId, tree, verifier) == Some(m)
  {
    HexRoundTrip(signature);
  }

  lemma AlgorithmIsLabel()
    ensures ValidLabel(SIGNATURE_ALGORITHM)
  {
    AsciiLength(SIGNATURE_ALGORITHM);
  }

  /** Sealing as a caller sees it: whatever is sealed, on any directory tree, meets the rules and
      lists exactly the files below its payload directory. */
  method SealRun(staged: StagedBackup, f: Foreign, draft: ManifestDraft, sealedAt: string, signer: Signer)
    returns (ok: bool)
    requires RetentionDisk.IsIdentifier(draft.data.backupId)
    requires staged.tree.payload.Directory? ==> WellNamed(staged.tree.payload.children)
    modifies staged, draft
    ensures ok ==> MeetsRules(draft.data) && HoldsExactly(f.hash, staged.tree.payload, draft.data.payloads)
  {
    ok := staged.Seal(f, draft, sealedAt, signer);
    PayloadCheckIsExact(f.hash, staged.tree.payload, draft.data.payloads);
  }

  /** What sealing demands of manifest, payload tree and signer. */
  ghost predicate CanSeal(
    f: Foreign, m: Manifest, runId: string, tree: BackupTree, sealedAt: string, signer: Signer)
  {
    && m.runId == runId && signer.algorithm == SIGNATURE_ALGORITHM && ValidLabel(signer.keyId)
    && ValidForVerification(m) && PayloadTreeMatches(f.hash, tree.payload, m.payloads)
    && var sealed := m.(sealedAt := Some(sealedAt), state := Verified,
         signature := Some(SignatureMetadata(SIGNATURE_ALGORITHM, signer.keyId)));
       var signature := signer.sign(f.manifests.encode(sealed));
       signature.Some? && AreBytes(signature.value) && signer.verify(f.manifests.encode(sealed), signature.value)
  }

  /** The same files under the same names, as far as length and digest can tell. */
  predicate SameUpToDigest(hash: Bytes -> string, a: map<string, Bytes>, b: map<string, Bytes>) {
    a.Keys == b.Keys && forall path | path in a :: |a[path]| == |b[path]| && hash(a[path]) == hash(b[path])
  }

  predicate Collides(hash: Bytes -> string, x: Bytes, y: Bytes) { x != y && hash(x) == hash(y) }

  lemma MatchingTreesAgree(hash: Bytes -> string, one: Entry, two: Entry, payloads: seq<PayloadEntry>)
    requires PayloadTreeMatches(hash, one, payloads) && PayloadTreeMatches(hash, two, payloads)
    ensures SameUpToDigest(hash, Walk(one.children, "payload/", 0).value, Walk(two.children, "payload/", 0).value)
  {
    var a := Walk(one.children, "payload/", 0).value;
    var b := Walk(two.children, "payload/", 0).value;
    forall path | path in a ensures |a[path]| == |b[path]| && hash(a[path]) == hash(b[path]) {
      assert path in (set i | 0 <= i < |payloads| :: payloads[i].path);
    }
  }

  /** The signature file carries the manifest's own algorithm and key id, and the verifier accepts
      its signature of exactly these manifest bytes. */
  ghost predicate IsSigned(f: Foreign, m: Manifest, manifest: Bytes, file: Option<Bytes>, verifier: Verifier) {
    && m.signature != None && file != None
    && exists text, raw ::
         && f.signatures.decode(file.value) == Some(DiskSignature(m.signature.value.algorithm, m.signature.value.keyId, text))
         && DecodeHex(text) == Some(raw)
         && verifier(m.signature.value.algorithm, m.signature.value.keyId, manifest, raw)
  }

  /** When a backup directory loads, and as what: its name is the manifest's backup id, the
      manifest file is the canonical form of a sealed manifest that meets every rule, it is
      signed, and the payload directory holds exactly what it lists. */
  lemma LoadsExactly(f: Foreign, name: string, tree: BackupTree, verifier: Verifier, m: Manifest)
    requires tree.payload.Directory? ==> WellNamed(tree.payload.children)
    ensures LoadVerified(f, name, tree, verifier) == Some(m) <==>
      && RetentionDisk.IsIdentifier(name) && m.backupId == name
      && tree.manifest == Some(f.manifests.encode(m)) && f.manifests.decode(f.manifests.encode(m)) == Some(m)
      && MeetsRules(m) && m.state == Verified && m.sealedAt != None && m.signature != None
      && IsShortText(m.signature.value.algorithm) && IsShortText(m.signature.value.keyId)
      && IsSigned(f, m, f.manifests.encode(m), tree.signature, verifier)
      && HoldsExactly(f.hash, tree.payload, m.payloads)
  {
    ValidityMeans(m);
    PayloadCheckIsExact(f.hash, tree.payload, m.payloads);
    if m.signature.Some? && tree.manifest.Some? {
      AcceptedIsSigned(f, m, tree, verifier);
    }
  }

  lemma AcceptedIsSigned(f: Foreign, m: Manifest, tree: BackupTree, verifier: Verifier)
    requires m.signature.Some? && tree.manifest.Some?
    ensures SignatureAccepted(f, m, tree, verifier) <==> IsSigned(f, m, tree.manifest.value, tree.signature, verifier)
  {
    if SignatureAccepted(f, m, tree, verifier) {
      var disk := f.signatures.decode(tree.signature.value).value;
      assert disk == DiskSignature(m.signature.value.algorithm, m.signature.value.keyId, disk.signature);
      assert DecodeHex(disk.signature) == Some(DecodeHex(disk.signature).value);
    }
  }

  lemma LoadedTreeMatches(f: Foreign, name: string, tree: BackupTree, v: Verifier)
    requires LoadVerified(f, name, tree, v).Some?
    ensures PayloadTreeMatches(f.hash, tree.payload, LoadVerified(f, name, tree, v).value.payloads)
  {
  }

  lemma SameOrColliding(hash: Bytes -> string, a: map<string, Bytes>, b: map<string, Bytes>)
    requires SameUpToDigest(hash, a, b)
    ensures a == b || exists path :: path in a && Collides(hash, a[path], b[path])
  {
    if a != b {
      var path :| path in a && a[path] != b[path];
      assert Collides(hash, a[path], b[path]);
    }
  }

  /** Two directories that load as the same manifest hold the same payload files, with the same
      lengths and digests; so no payload is added, dropped or changed unless two different
      contents with one digest and one length have been found. */
  lemma LoadingPinsThePayloads(f: Foreign, name: string, one: BackupTree, two: BackupTree, v: Verifier, w: Verifier)
    requires LoadVerified(f, name, one, v).Some? && LoadVerified(f, name, one, v) == LoadVerified(f, name, two, w)
    ensures var a, b := Walk(one.payload.children, "payload/", 0), Walk(two.payload.children, "payload/", 0);
      && a.Some? && b.Some? && SameUpToDigest(f.hash, a.value, b.value)
      && (a == b || exists path :: path in a.value && Collides(f.hash, a.value[path], b.value[path]))
  {
    LoadedTreeMatches(f, name, one, v);
    LoadedTreeMatches(f, name, two, w);
    MatchingTreesAgree(f.hash, one.payload, two.payload, LoadVerified(f, name, one, v).value.payloads);
    SameOrColliding(f.hash, Walk(one.payload.children, "payload/", 0).value, Walk(two.payload.children, "payload/", 0).value);
  }
}
