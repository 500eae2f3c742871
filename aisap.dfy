/** The AppImage object of package `aisap` (file appimage.go): its permission
    grants, its isolation level and the user identity the level selects, and
    the small rules it applies to desktop-entry values and icon files. */
module Aisap {
  import opened Wrappers
  import opened Strings
  import opened Binary
  import Strconv
  import Helpers

  /** "permissions level must be int from 0-3" */
  datatype LevelError = InvalidLevel

  /** The permission profile `Perms` points to: a level and four grant lists. */
  datatype Perms = Perms(level: int, files: seq<string>, devices: seq<string>,
                         sockets: seq<string>, share: seq<string>)

  predicate LevelInRange(l: int) { 0 <= l <= 3 }

  /** A user name that `filepath.Join("/home", name)` keeps as one path element. */
  predicate PlainName(u: string) { |u| > 0 && '/' !in u && u != "." && u != ".." }

  /** The user name reported at level `l`: the invoking user's at levels 0
      and 1, the synthetic "ai" at levels 2 and 3. */
  function ReportedUser(l: int, currentUser: string): string
    requires LevelInRange(l)
  {
    if l == 1 || l == 0 then currentUser else "ai"
  }

  // ----- NewAppImage: the version default -----------------------------------

  /** The version kept from the desktop entry, "1.0" when it gives none. */
  function DefaultVersion(entryVersion: string): (v: string)
    ensures v != ""
    ensures entryVersion != "" ==> v == entryVersion
    ensures entryVersion == "" ==> v == "1.0"
  {
    if entryVersion == "" then "1.0" else entryVersion
  }

  // ----- AddFiles: access-mode normalisation --------------------------------

  /** The entry states its access mode explicitly. */
  predicate HasMode(e: string)
  {
    HasSuffix(e, ":ro") || HasSuffix(e, ":rw")
  }

  /** The last three bytes of an entry, as `e[len(e)-3:]` takes them: the
      last three characters, or the whole entry when it has fewer. In that
      case the three bytes include part of a multi-byte character, so they
      are, like the shorter entry, neither `:ro` nor `:rw`. */
  function ModeTail(e: string): string
  {
    if |e| >= 3 then e[|e| - 3..] else e
  }

  /** The rewrite `AddFiles` applies to an entry of at least three bytes:
      `:ro` is appended when the entry has no `:` or its last three bytes are
      neither `:ro` nor `:rw`. */
  function NormaliseFile(e: string): string
    requires Utf8Length(e) >= 3
  {
    var ex := ModeTail(e);
    if |Split(e, ':')| < 2 || (ex != ":ro" && ex != ":rw") then e + ":ro" else e
  }

  /** An entry is kept iff it already ends in `:ro` or `:rw`; otherwise it
      gains `:ro`; either way the result states its mode. */
  lemma NormaliseFileMode(e: string)
    requires Utf8Length(e) >= 3
    ensures NormaliseFile(e) == e <==> HasMode(e)
    ensures !HasMode(e) ==> NormaliseFile(e) == e + ":ro"
    ensures HasMode(NormaliseFile(e))
  {
    var n := |e|;
    if HasMode(e) {
      assert e[n - 3..][0] == ':';
      assert e[n - 3] == ':';
    }
    if !HasMode(e) {
      var r := e + ":ro";
      assert r[|r| - 3..] == ":ro";
    }
  }

  /** Normalising twice is normalising once. */
  lemma NormaliseFileIdempotent(e: string)
    requires Utf8Length(e) >= 3
    ensures Utf8Length(NormaliseFile(e)) >= 3
    ensures NormaliseFile(NormaliseFile(e)) == NormaliseFile(e)
  {
    NormaliseFileMode(e);
    NormaliseFileMode(NormaliseFile(e));
  }

  /** The two entries of the documented example. */
  lemma NormaliseFileExample()
    ensures NormaliseFile("/tmp/a") == "/tmp/a:ro"
    ensures NormaliseFile("/tmp/b:rw") == "/tmp/b:rw"
  {
    assert NormaliseFile("/tmp/a") == "/tmp/a:ro" by {
      assert "/tmp/a"[3..] == "p/a";
      NormaliseFileMode("/tmp/a");
    }
    assert NormaliseFile("/tmp/b:rw") == "/tmp/b:rw" by {
      assert "/tmp/b:rw"[6..] == ":rw";
      NormaliseFileMode("/tmp/b:rw");
    }
  }

  /** A one-character entry of three UTF-8 bytes is long enough for the
      byte slice and gains `:ro`. */
  lemma NormaliseFileMultiByte()
    ensures Utf8Length("\U{65e5}") == 3
    ensures NormaliseFile("\U{65e5}") == "\U{65e5}:ro"
  {
    var e := "\U{65e5}";
    assert Utf8Length(e) == Utf8Width(e[0]) + Utf8Length(e[1..]);
    assert e[1..] == [];
    assert !HasMode(e);
    NormaliseFileMode(e);
  }

  // ----- Icon ---------------------------------------------------------------

  /** "desktop file wasn't parsed", "desktop file doesn't specify an icon",
      an error of the glob, "unable to find icon with valid extension (.png,
      .svg) inside AppImage". */
  datatype IconError = DesktopNotParsed | NoIconKey | GlobFailed | NoValidIcon

  predicate IsImageName(v: string)
  {
    HasSuffix(v, ".png") || HasSuffix(v, ".svg")
  }

  /** The index of the first candidate with an image extension. */
  function FirstImage(candidates: seq<string>): (k: Option<nat>)
    ensures k.Some? ==>
      k.value < |candidates| && IsImageName(candidates[k.value]) &&
      forall i :: 0 <= i < k.value ==> !IsImageName(candidates[i])
    ensures k.None? ==> forall i :: 0 <= i < |candidates| ==> !IsImageName(candidates[i])
  {
    if candidates == [] then None
    else if IsImageName(candidates[0]) then Some(0)
    else
      var k := FirstImage(candidates[1..]);
      if k.Some? then Some(k.value + 1) else None
  }

  /** `Icon`: the icon file to open. `iconKey` is the desktop entry's `Icon`
      value (None when no desktop entry was parsed, "" when the key is
      absent); `globbed` is what the glob `<mount>/<key>*` returns (None when
      the glob fails). A key with an image extension is used as it is;
      otherwise the first globbed path with one wins. */
  function Icon(iconKey: Option<string>, globbed: Option<seq<string>>): (r: Result<string, IconError>)
    ensures iconKey.None? ==> r == Failure(DesktopNotParsed)
    ensures iconKey == Some("") ==> r == Failure(NoIconKey)
    ensures iconKey.Some? && IsImageName(iconKey.value) ==> r == Success(iconKey.value)
    ensures r.Success? ==> IsImageName(r.value)
    ensures r.Success? && !IsImageName(iconKey.value) ==>
      globbed.Some? &&
      exists k :: 0 <= k < |globbed.value| && globbed.value[k] == r.value &&
                  forall i :: 0 <= i < k ==> !IsImageName(globbed.value[i])
    ensures iconKey.Some? && iconKey.value != "" && !IsImageName(iconKey.value) ==>
      (globbed.None? ==> r == Failure(GlobFailed)) &&
      (globbed.Some? && (exists i :: 0 <= i < |globbed.value| && IsImageName(globbed.value[i])) ==> r.Success?)
    ensures iconKey.Some? && iconKey.value != "" && !IsImageName(iconKey.value) && globbed.Some? ==>
      (r == Failure(NoValidIcon) <==> forall i :: 0 <= i < |globbed.value| ==> !IsImageName(globbed.value[i]))
  {
    if iconKey.None? then Failure(DesktopNotParsed)
    else if iconKey.value == "" then Failure(NoIconKey)
    else if IsImageName(iconKey.value) then Success(iconKey.value)
    else if globbed.None? then Failure(GlobFailed)
    else
      var k := FirstImage(globbed.value);
      if k.Some? then Success(globbed.value[k.value]) else Failure(NoValidIcon)
  }

  // ----- Thumbnail ----------------------------------------------------------

  const PngMagic: seq<byte> := [0x89, 0x50, 0x4e, 0x47]    // "\x89PNG"

  /** The 4-byte buffer after `io.ReadAtLeast(f, id, 4)`: the first bytes of
      the icon, zeros where the icon is shorter. */
  function MagicBuffer(icon: seq<byte>): (id: seq<byte>)
    ensures |id| == 4
    ensures forall i :: 0 <= i < 4 ==> id[i] == (if i < |icon| then icon[i] else 0)
  {
    if |icon| >= 4 then icon[..4] else icon + seq(4 - |icon|, _ => 0)
  }

  /** The test of the buffer `Thumbnail` makes before deciding to convert. */
  predicate BufferIsPng(id: seq<byte>)
    requires |id| == 4
  {
    !(id[0] != 0x89 || id[1] != 'P' as int || id[2] != 'N' as int || id[3] != 'G' as int)
  }

  /** The test accepts exactly the icons that start with the PNG magic; a
      short icon never passes, since its zero padding is not 'G'. */
  lemma PngTest(icon: seq<byte>)
    ensures BufferIsPng(MagicBuffer(icon)) <==> |icon| >= 4 && icon[..4] == PngMagic
  {
    var id := MagicBuffer(icon);
    if |icon| >= 4 && BufferIsPng(id) {
      assert icon[..4] == id;
    }
  }

  /** What `Thumbnail` hands back: the icon stream as it is, or the stream it
      gives to the image converter. */
  datatype Thumb = AsIs(stream: seq<byte>) | Convert(stream: seq<byte>)

  /** `Thumbnail` as written: the magic is read from the file and only glued
      back in front of the rest on the conversion path; on the PNG path the
      already-advanced file is returned. */
  function ThumbnailAsWritten(icon: seq<byte>): Thumb
  {
    var id := MagicBuffer(icon);
    var rest := if |icon| >= 4 then icon[4..] else [];
    if id[0] != 0x89 || id[1] != 'P' as int || id[2] != 'N' as int || id[3] != 'G' as int
    then Convert(id + rest)
    else AsIs(rest)
  }

  /** As written, a PNG icon comes back without its first four bytes. */
  lemma ThumbnailAsWrittenDropsSignature(icon: seq<byte>)
    requires |icon| >= 4 && icon[..4] == PngMagic
    ensures ThumbnailAsWritten(icon) == AsIs(icon[4..])
    ensures ThumbnailAsWritten(icon).stream != icon
  {
    PngTest(icon);
    assert MagicBuffer(icon) == PngMagic;
  }

  /** As written, an icon shorter than four bytes reaches the converter
      followed by the zero padding of the magic buffer. */
  lemma ThumbnailAsWrittenPadsShortIcon(icon: seq<byte>)
    requires |icon| < 4
    ensures ThumbnailAsWritten(icon) == Convert(icon + seq(4 - |icon|, _ => 0))
    ensures ThumbnailAsWritten(icon).stream != icon
  {
    PngTest(icon);
  }

  /** `Thumbnail` as intended: the test is the same, and the stream, passed
      through or converted, is the whole icon. */
  function Thumbnail(icon: seq<byte>): (t: Thumb)
    ensures t.AsIs? <==> |icon| >= 4 && icon[..4] == PngMagic
    ensures t.stream == icon
  {
    PngTest(icon);
    if BufferIsPng(MagicBuffer(icon)) then AsIs(icon) else Convert(icon)
  }

  // ----- Type ---------------------------------------------------------------

  /** `Type()`: the detected type with its error dropped; -1 stands for
      "not an AppImage". */
  function TypeOf(file: seq<byte>): (t: int)
    ensures t in {1, 2, 0, -2, -1}
    ensures t == -1 <==> Helpers.GetAppImageType(file).err.Some?
  {
    Helpers.GetAppImageType(file).value
  }

  // ----- the object ---------------------------------------------------------

  /** An opened AppImage. `Files` .. `Level` are the fields of its permission
      profile; `usern`, `homed` and `uid` are the identity that `SetLevel`
      derives. `currentUser` and `realUid` are what the operating system
      reports for the invoking user. */
  class AppImage {
    var Files: seq<string>
    var Devices: seq<string>
    var Sockets: seq<string>
    var Share: seq<string>
    var Level: int
    var Name: string
    var Version: string
    var usern: string
    var homed: string
    var uid: string
    const currentUser: string
    const realUid: nat

    /** The permission profile as one value. */
    function Profile(): Perms
      reads this
    {
      Perms(Level, Files, Devices, Sockets, Share)
    }

    function Identity(): (string, string, string)
      reads this
    {
      (usern, homed, uid)
    }

    /** The identity at level `l`: the reported user, a home under /home
        named after it, and the real uid whatever the level. */
    predicate IdentifiedAs(l: int)
      reads this
      requires LevelInRange(l)
    {
      usern == ReportedUser(l, currentUser) && homed == "/home/" + usern &&
      uid == Strconv.Itoa(realUid)
    }

    /** Either no level has been applied yet, or the identity is one that
        a level in 0..3 selects: the invoking user or "ai", a home under
        /home named after it, and the real uid. */
    ghost predicate Valid()
      reads this
    {
      PlainName(currentUser) &&
      (Identity() == ("", "", "") ||
       ((usern == currentUser || usern == "ai") && homed == "/home/" + usern &&
        uid == Strconv.Itoa(realUid)))
    }

    /** `NewAppImage` after the image is mounted and its desktop entry and
        permissions are read: the version defaults to "1.0" and the profile's
        level is applied (its error is ignored, as in the source). */
    constructor (currentUser: string, realUid: nat, name: string, entryVersion: string, perms: Perms)
      requires PlainName(currentUser)
      ensures Valid()
      ensures this.currentUser == currentUser && this.realUid == realUid
      ensures Name == name && Version == DefaultVersion(entryVersion)
      ensures Profile() == perms
      ensures LevelInRange(perms.level) ==> IdentifiedAs(perms.level)
      ensures !LevelInRange(perms.level) ==> Identity() == ("", "", "")
    {
      this.currentUser := currentUser;
      this.realUid := realUid;
      Name := name;
      Version := DefaultVersion(entryVersion);
      Level := perms.level;
      Files, Devices, Sockets, Share := perms.files, perms.devices, perms.sockets, perms.share;
      usern, homed, uid := "", "", "";
      new;
      var _ := SetLevel(perms.level);
    }

    /** `updateHome`: rejects a level outside 0..3 and changes nothing then;
        otherwise sets the identity the level selects. */
    method UpdateHome(l: int) returns (err: Option<LevelError>)
      requires Valid()
      modifies this`usern, this`homed, this`uid
      ensures Valid()
      ensures err.None? <==> LevelInRange(l)
      ensures err.Some? ==> Identity() == old(Identity())
      ensures err.None? ==> IdentifiedAs(l)
    {
      if l == 1 || l == 0 {
        usern := currentUser;
      } else if l > 1 && l <= 3 {
        usern := "ai";
      } else {
        return Some(InvalidLevel);
      }
      homed := "/home/" + usern;
      uid := Strconv.Itoa(realUid);
      return None;
    }

    /** `SetLevel`: the level and identity change together, or not at all. */
    method SetLevel(l: int) returns (err: Option<LevelError>)
      requires Valid()
      modifies this
      ensures Valid()
      ensures err.None? <==> LevelInRange(l)
      ensures err.Some? ==> Profile() == old(Profile()) && Identity() == old(Identity())
      ensures err.None? ==> Profile() == old(Profile()).(level := l) && IdentifiedAs(l)
      ensures Name == old(Name) && Version == old(Version)
    {
      err := UpdateHome(l);
      if err.Some? {
        return;
      }
      Level := l;
    }

    /** `AddFiles`: rewrites each entry of the caller's slice in place so that
        it states its mode, then appends the entries, in order, to `Files`. */
    method AddFiles(s: array<string>)
      requires Valid()
      requires forall i :: 0 <= i < s.Length ==> Utf8Length(s[i]) >= 3
      modifies this, s
      ensures Valid()
      ensures forall i :: 0 <= i < s.Length ==> s[i] == NormaliseFile(old(s[i]))
      ensures Profile() == old(Profile()).(files := old(Files) + s[..])
      ensures Identity() == old(Identity()) && Name == old(Name) && Version == old(Version)
    {
      for i := 0 to s.Length
        invariant forall j :: 0 <= j < i ==> s[j] == NormaliseFile(old(s[j]))
        invariant forall j :: i <= j < s.Length ==> s[j] == old(s[j])
        invariant unchanged(this)
      {
        var ex := ModeTail(s[i]);
        if |Split(s[i], ':')| < 2 || (ex != ":ro" && ex != ":rw") {
          s[i] := s[i] + ":ro";
        }
      }
      Files := Files + s[..];
    }

    /** `AddDevices`: appends the grants unchanged, touching no other list. */
    method AddDevices(s: seq<string>)
      requires Valid()
      modifies this
      ensures Valid()
      ensures Profile() == old(Profile()).(devices := old(Devices) + s)
      ensures Identity() == old(Identity()) && Name == old(Name) && Version == old(Version)
    {
      Devices := Devices + s;
    }

    /** `AddSockets`: appends the grants unchanged, touching no other list. */
    method AddSockets(s: seq<string>)
      requires Valid()
      modifies this
      ensures Valid()
      ensures Profile() == old(Profile()).(sockets := old(Sockets) + s)
      ensures Identity() == old(Identity()) && Name == old(Name) && Version == old(Version)
    {
      Sockets := Sockets + s;
    }

    /** `AddShare`: appends the grants unchanged, touching no other list. */
    method AddShare(s: seq<string>)
      requires Valid()
      modifies this
      ensures Valid()
      ensures Profile() == old(Profile()).(share := old(Share) + s)
      ensures Identity() == old(Identity()) && Name == old(Name) && Version == old(Version)
    {
      Share := Share + s;
    }

    /** `SetPerms`: the whole profile is overwritten by the one read from the
        entry file and that read's error is passed on; the identity is left
        as it was, even when the new level differs. */
    method SetPerms(loaded: Perms, loadErr: Option<string>) returns (err: Option<string>)
      requires Valid()
      modifies this
      ensures Valid()
      ensures err == loadErr
      ensures Profile() == loaded
      ensures Identity() == old(Identity()) && Name == old(Name) && Version == old(Version)
    {
      Level, Files, Devices, Sockets, Share := loaded.level, loaded.files, loaded.devices, loaded.sockets, loaded.share;
      return loadErr;
    }
  }
}
