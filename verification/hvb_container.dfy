/** The `.hvb` backup: a framed header and ciphertext, with the whole frame as associated data, and the
    export and import that write and read it. The JSON header, base 64, the phrase check and the costed
    key derivation are parameters. */
module HvbContainers {
  import opened Wrappers
  import opened Crypto
  import opened Paths

  const HVB_MAGIC: Bytes := [0x48, 0x56, 0x42, 0x4B]
  const HVB_FORMAT_VERSION: nat := 2
  const HVB_PREFIX_LEN: nat := 10
  const HVB_MAX_HEADER_LEN: nat := 8 * 1024
  const HVB_KDF_NAME: string := "argon2id"
  const HVB_DEFAULT_M_COST_KIB: nat := 64 * 1024
  const HVB_DEFAULT_T_COST: nat := 3
  const HVB_DEFAULT_P_COST: nat := 1
  const HVB_MIN_M_COST_KIB: nat := 19 * 1024
  const HVB_MAX_M_COST_KIB: nat := 1024 * 1024
  const HVB_MIN_T_COST: nat := 2
  const HVB_MAX_T_COST: nat := 16
  const HVB_MAX_P_COST: nat := 16
  const U64: nat := 0x1_0000_0000_0000_0000

  const SQLITE_HEADER: Bytes :=
    [0x53, 0x51, 0x4C, 0x69, 0x74, 0x65, 0x20, 0x66, 0x6F, 0x72, 0x6D, 0x61, 0x74, 0x20, 0x33, 0x00]

  // ---- the frame -----------------------------------------------------------------------------------------

  function LittleEndian16(n: nat): (r: Bytes)
    requires n < 0x1_0000
    ensures |r| == 2
  {
    [n % 256, n / 256]
  }

  function LittleEndian32(n: nat): (r: Bytes)
    requires n < 0x1_0000_0000
    ensures |r| == 4
  {
    [n % 256, n / 256 % 256, n / 256 / 256 % 256, n / 256 / 256 / 256]
  }

  function Read16(b: Bytes): nat
    requires |b| == 2
  {
    var n: int := b[0];
    n + 256 * (b[1] as int)
  }

  function Read32(b: Bytes): nat
    requires |b| == 4
  {
    b[0] as int + 256 * (b[1] as int + 256 * (b[2] as int + 256 * (b[3] as int)))
  }

  lemma Digit(low: int, high: nat)
    requires 0 <= low < 256
    ensures (low + 256 * high) % 256 == low && (low + 256 * high) / 256 == high
  {
  }

  lemma ReadUndoesWrite(n: nat)
    ensures n < 0x1_0000 ==> Read16(LittleEndian16(n)) == n
    ensures n < 0x1_0000_0000 ==> Read32(LittleEndian32(n)) == n
  {
  }

  lemma WriteUndoesRead16(b: Bytes)
    requires |b| == 2
    ensures Read16(b) < 0x1_0000 && LittleEndian16(Read16(b)) == b
  {
    Digit(b[0], b[1]);
  }

  lemma WriteUndoesRead32(b: Bytes)
    requires |b| == 4
    ensures Read32(b) < 0x1_0000_0000 && LittleEndian32(Read32(b)) == b
  {
    var n3: nat := b[3];
    var n2: nat := b[2] as int + 256 * n3;
    var n1: nat := b[1] as int + 256 * n2;
    Digit(b[2], n3);
    Digit(b[1], n2);
    Digit(b[0], n1);
  }

  function BuildHvbPrefix(header: Bytes): Result<Bytes> {
    if |header| > HVB_MAX_HEADER_LEN then Err(Validation)
    else Ok(HVB_MAGIC + LittleEndian16(HVB_FORMAT_VERSION) + LittleEndian32(|header|) + header)
  }

  datatype Frame = Frame(prefix: Bytes, header: Bytes, ciphertext: Bytes)

  function SplitFrame(bytes: Bytes): Result<Frame> {
    if |bytes| < HVB_PREFIX_LEN || bytes[..4] != HVB_MAGIC then Err(NotABackup)
    else if Read16(bytes[4..6]) != HVB_FORMAT_VERSION then Err(UnsupportedBackupVersion)
    else
      var headerLen := Read32(bytes[6..10]);
      if headerLen == 0 || headerLen > HVB_MAX_HEADER_LEN then Err(Validation)
      else
        var headerEnd := HVB_PREFIX_LEN + headerLen;
        if |bytes| <= headerEnd then Err(Validation)
        else Ok(Frame(bytes[..headerEnd], bytes[HVB_PREFIX_LEN..headerEnd], bytes[headerEnd..]))
  }

  /** A built container splits into what it was built from, exactly when header and ciphertext are not
      empty; an empty header is built but refused. */
  lemma SplitUndoesBuild(header: Bytes, ciphertext: Bytes)
    requires BuildHvbPrefix(header).Ok?
    ensures var prefix := BuildHvbPrefix(header).value;
      SplitFrame(prefix + ciphertext) == Ok(Frame(prefix, header, ciphertext)) <==> header != [] && ciphertext != []
  {
    var prefix := BuildHvbPrefix(header).value;
    var bytes := prefix + ciphertext;
    ReadUndoesWrite(HVB_FORMAT_VERSION);
    ReadUndoesWrite(|header|);
    assert |prefix| == HVB_PREFIX_LEN + |header|;
    assert bytes[..4] == HVB_MAGIC;
    assert bytes[4..6] == LittleEndian16(HVB_FORMAT_VERSION);
    assert bytes[6..10] == LittleEndian32(|header|);
    assert bytes[..HVB_PREFIX_LEN + |header|] == prefix;
    assert bytes[HVB_PREFIX_LEN..HVB_PREFIX_LEN + |header|] == header;
    assert bytes[HVB_PREFIX_LEN + |header|..] == ciphertext;
    hide Read16, Read32, LittleEndian16, LittleEndian32;
  }

  /** Nothing of an accepted file is lost: building from its parts gives the file back. */
  lemma BuildUndoesSplit(bytes: Bytes)
    requires SplitFrame(bytes).Ok?
    ensures var f := SplitFrame(bytes).value;
      && BuildHvbPrefix(f.header) == Ok(f.prefix) && f.prefix + f.ciphertext == bytes
      && 1 <= |f.header| <= HVB_MAX_HEADER_LEN && f.ciphertext != []
  {
    var f := SplitFrame(bytes).value;
    WriteUndoesRead16(bytes[4..6]);
    WriteUndoesRead32(bytes[6..10]);
    hide Read16, Read32, LittleEndian16, LittleEndian32;
    assert f.prefix == bytes[..4] + bytes[4..6] + bytes[6..10] + f.header;
  }

  // ---- the container ---------------------------------------------------------------------------------------

  datatype Header = Header(kdf: string, mCostKib: nat, tCost: nat, pCost: nat, salt64: string, nonce64: string, plaintextSize: nat)

  /** The libraries the container is made with. */
  datatype Formats = Formats(
    aead: Suite,
    derive: (string, Bytes, nat, nat, nat) -> Option<Bytes>,
    serialize: Header -> Bytes,
    parse: Bytes -> Option<Header>,
    encode64: Bytes -> string,
    decode64: string -> Option<Bytes>,
    validPhrase: string -> bool,
    digest: Bytes -> string)
  {
    /** Headers and base 64 read back, and accepted costs derive a 32-byte key. */
    ghost predicate Lawful() {
      && aead.Ideal()
      && (forall h: Header :: parse(serialize(h)) == Some(h))
      && (forall b: Bytes :: decode64(encode64(b)) == Some(b))
      && (forall phrase: string, salt: Bytes, m: nat, t: nat, p: nat ::
            |salt| == SALT_LEN && CostsAccepted(m, t, p) ==> derive(phrase, salt, m, t, p).Some?)
      && (forall phrase: string, salt: Bytes, m: nat, t: nat, p: nat ::
            derive(phrase, salt, m, t, p).Some? ==> |derive(phrase, salt, m, t, p).value| == KEY_LEN)
    }

    /** Exported headers have a fixed shape of a few hundred bytes; sizes are 64-bit. */
    ghost predicate SerializesShort() {
      forall salt: Salt, nonce: Nonce, size: nat :: size < U64 ==>
        1 <= |serialize(ExportHeader(this, salt, nonce, size))| <= HVB_MAX_HEADER_LEN
    }
  }

  function ExportHeader(f: Formats, salt: Bytes, nonce: Bytes, size: nat): Header {
    Header(HVB_KDF_NAME, HVB_DEFAULT_M_COST_KIB, HVB_DEFAULT_T_COST, HVB_DEFAULT_P_COST,
           f.encode64(salt), f.encode64(nonce), size)
  }

  /** Bounds against a weakened derivation and against a memory bomb. */
  predicate CostsAccepted(m: nat, t: nat, p: nat) {
    && HVB_MIN_M_COST_KIB <= m <= HVB_MAX_M_COST_KIB
    && HVB_MIN_T_COST <= t <= HVB_MAX_T_COST
    && 0 < p <= HVB_MAX_P_COST
  }

  predicate ValidKdfParams(h: Header) {
    h.kdf == HVB_KDF_NAME && CostsAccepted(h.mCostKib, h.tCost, h.pCost)
  }

  predicate IsSqlite(bytes: Bytes) {
    |bytes| >= |SQLITE_HEADER| && bytes[..|SQLITE_HEADER|] == SQLITE_HEADER
  }

  function ReadSized(f: Formats, text: string, len: nat): Option<Bytes> {
    match f.decode64(text)
    case Some(b) => if |b| == len then Some(b) else None
    case None => None
  }

  /** `open_hvb_container`: nothing is derived before the costs are checked. */
  function OpenContainer(f: Formats, bytes: Bytes, phrase: string): Result<Bytes> {
    match SplitFrame(bytes)
    case Err(error) => Err(error)
    case Ok(frame) => OpenFrame(f, frame, phrase)
  }

  function OpenFrame(f: Formats, frame: Frame, phrase: string): Result<Bytes> {
    match f.parse(frame.header)
    case None => Err(Validation)
    case Some(h) =>
      if !ValidKdfParams(h) then Err(Validation)
      else if ReadSized(f, h.salt64, SALT_LEN).None? then Err(Validation)
      else if ReadSized(f, h.nonce64, NONCE_LEN).None? then Err(Validation)
      else
        var salt, nonce := ReadSized(f, h.salt64, SALT_LEN).value, ReadSized(f, h.nonce64, NONCE_LEN).value;
        var key := f.derive(phrase, salt, h.mCostKib, h.tCost, h.pCost);
        if key.None? then Err(CryptoFailure)
        else
          var plaintext := f.aead.open(key.value, nonce, frame.prefix, frame.ciphertext);
          if plaintext.None? then Err(WrongPhraseOrAlteredFile)
          else if !IsSqlite(plaintext.value) then Err(Validation)
          else if |plaintext.value| != h.plaintextSize then Err(Validation)
          else Ok(plaintext.value)
  }

  /** The first 16 bytes of an SQLite file: a name and a zero. */
  lemma IsSqliteIff(bytes: Bytes)
    ensures IsSqlite(bytes) <==>
      |bytes| >= 16 && bytes[15] == 0 && forall i :: 0 <= i < 15 ==> bytes[i] as int == "SQLite format 3"[i] as int
  {
    if |bytes| >= 16 {
      assert bytes[..16] == SQLITE_HEADER <==> forall i :: 0 <= i < 16 ==> bytes[i] == SQLITE_HEADER[i];
    }
  }

  /** The layout of an accepted file, byte by byte. */
  lemma FrameLayout(bytes: Bytes)
    requires SplitFrame(bytes).Ok?
    ensures |bytes| > 10 && bytes[0] == 0x48 && bytes[1] == 0x56 && bytes[2] == 0x42 && bytes[3] == 0x4B
    ensures bytes[4] == 2 && bytes[5] == 0
    ensures var n := bytes[6] as int + 0x100 * bytes[7] as int + 0x1_0000 * bytes[8] as int + 0x100_0000 * bytes[9] as int;
      && 1 <= n <= 8192 && 10 + n < |bytes|
      && SplitFrame(bytes).value == Frame(bytes[..10 + n], bytes[10..10 + n], bytes[10 + n..])
  {
    assert bytes[..4][0] == 0x48 && bytes[..4][1] == 0x56 && bytes[..4][2] == 0x42 && bytes[..4][3] == 0x4B;
  }

  predicate OpensTo(f: Formats, frame: Frame, h: Header, phrase: string, p: Bytes) {
    && h.kdf == "argon2id"
    && 19456 <= h.mCostKib <= 1048576 && 2 <= h.tCost <= 16 && 1 <= h.pCost <= 16
    && f.decode64(h.salt64).Some? && |f.decode64(h.salt64).value| == 32
    && f.decode64(h.nonce64).Some? && |f.decode64(h.nonce64).value| == 12
    && f.derive(phrase, f.decode64(h.salt64).value, h.mCostKib, h.tCost, h.pCost).Some?
    && f.aead.open(f.derive(phrase, f.decode64(h.salt64).value, h.mCostKib, h.tCost, h.pCost).value,
                   f.decode64(h.nonce64).value, frame.prefix, frame.ciphertext) == Some(p)
    && IsSqlite(p) && |p| == h.plaintextSize
  }

  /** A file opens to a database exactly when its header and all that hangs on it pass these checks. */
  lemma OpenedIff(f: Formats, bytes: Bytes, phrase: string, p: Bytes)
    ensures OpenContainer(f, bytes, phrase) == Ok(p) <==>
      && SplitFrame(bytes).Ok? && f.parse(SplitFrame(bytes).value.header).Some?
      && OpensTo(f, SplitFrame(bytes).value, f.parse(SplitFrame(bytes).value.header).value, phrase, p)
  {
    hide SplitFrame, IsSqlite;
  }

  /** The costs a file asks for are looked at before anything is derived: a file that asks for others is
      refused, and would be whatever the derivation did. */
  lemma OtherCostsNeverDerive(f: Formats, bytes: Bytes, phrase: string, derive: (string, Bytes, nat, nat, nat) -> Option<Bytes>)
    requires SplitFrame(bytes).Ok? && f.parse(SplitFrame(bytes).value.header).Some?
    requires var h := f.parse(SplitFrame(bytes).value.header).value;
      !(19456 <= h.mCostKib <= 1048576 && 2 <= h.tCost <= 16 && 1 <= h.pCost <= 16)
    ensures OpenContainer(f, bytes, phrase) == Err(Validation) == OpenContainer(f.(derive := derive), bytes, phrase)
  {
    hide SplitFrame, IsSqlite;
  }

  /** The file of an export: the source sealed under the phrase, framed by its header. */
  function Container(f: Formats, source: Bytes, key: Bytes, salt: Bytes, nonce: Bytes): Result<Bytes> {
    match BuildHvbPrefix(f.serialize(ExportHeader(f, salt, nonce, |source|)))
    case Err(error) => Err(error)
    case Ok(prefix) => Ok(prefix + f.aead.seal(key, nonce, prefix, source))
  }

  /** The header of the file asks for Argon2id with 64 MiB, three passes and one lane, and gives this size. */
  predicate AsksFor(f: Formats, bytes: Bytes, size: nat) {
    && SplitFrame(bytes).Ok?
    && match f.parse(SplitFrame(bytes).value.header)
       case None => false
       case Some(h) => h.kdf == "argon2id" && h.mCostKib == 65536 && h.tCost == 3 && h.pCost == 1 && h.plaintextSize == size
  }

  /** What is exported opens with its phrase to the source, so the self-check after writing cannot fail. */
  lemma ExportOpens(f: Formats, source: Bytes, phrase: string, salt: Salt, nonce: Nonce)
    requires f.Lawful() && f.SerializesShort() && IsSqlite(source) && |source| < U64
    ensures var key := f.derive(phrase, salt, HVB_DEFAULT_M_COST_KIB, HVB_DEFAULT_T_COST, HVB_DEFAULT_P_COST);
      && key.Some?
      && Container(f, source, key.value, salt, nonce).Ok?
      && OpenContainer(f, Container(f, source, key.value, salt, nonce).value, phrase) == Ok(source)
      && AsksFor(f, Container(f, source, key.value, salt, nonce).value, |source|)
  {
    var header := ExportHeader(f, salt, nonce, |source|);
    assert CostsAccepted(HVB_DEFAULT_M_COST_KIB, HVB_DEFAULT_T_COST, HVB_DEFAULT_P_COST);
    var key := f.derive(phrase, salt, HVB_DEFAULT_M_COST_KIB, HVB_DEFAULT_T_COST, HVB_DEFAULT_P_COST).value;
    assert f.aead.SealsIdeally();
    assert 1 <= |f.serialize(header)| <= HVB_MAX_HEADER_LEN;
    var prefix := BuildHvbPrefix(f.serialize(header)).value;
    assert |key| == KEY_LEN;
    SealedFrameOpens(f.aead, key, nonce, prefix, source);
    SplitUndoesBuild(f.serialize(header), f.aead.seal(key, nonce, prefix, source));
    hide BuildHvbPrefix, SplitFrame, IsSqlite;
    assert f.decode64(f.encode64(salt)) == Some(salt) && f.decode64(f.encode64(nonce)) == Some(nonce);
  }

  lemma SealedFrameOpens(s: Suite, key: Bytes, nonce: Bytes, prefix: Bytes, source: Bytes)
    requires s.Ideal() && |key| == KEY_LEN && |nonce| == NONCE_LEN
    ensures s.open(key, nonce, prefix, s.seal(key, nonce, prefix, source)) == Some(source)
    ensures s.seal(key, nonce, prefix, source) != []
  {
    assert s.SealsIdeally();
  }

  /** Header and salt are authenticated: no ciphertext opens behind two different prefixes, whatever the
      phrases. */
  lemma OtherPrefixNeverOpens(f: Formats, bytes: Bytes, other: Bytes, phrase: string, phrase': string)
    requires f.Lawful()
    requires SplitFrame(bytes).Ok? && SplitFrame(other).Ok?
    requires SplitFrame(bytes).value.ciphertext == SplitFrame(other).value.ciphertext
    requires SplitFrame(bytes).value.prefix != SplitFrame(other).value.prefix
    ensures OpenContainer(f, bytes, phrase).Ok? ==> OpenContainer(f, other, phrase').Err?
  {
    hide SplitFrame, IsSqlite;
    if OpenContainer(f, bytes, phrase).Ok? && OpenContainer(f, other, phrase').Ok? {
      OpenedPrefix(f, SplitFrame(bytes).value, phrase);
      OpenedPrefix(f, SplitFrame(other).value, phrase');
    }
  }

  lemma OpenedPrefix(f: Formats, frame: Frame, phrase: string)
    requires f.Lawful() && OpenFrame(f, frame, phrase).Ok?
    ensures f.aead.origin(frame.ciphertext).2 == frame.prefix
    ensures IsSqlite(OpenFrame(f, frame, phrase).value)
  {
    hide IsSqlite;
    var h := f.parse(frame.header).value;
    var salt, nonce := ReadSized(f, h.salt64, SALT_LEN).value, ReadSized(f, h.nonce64, NONCE_LEN).value;
    var key := f.derive(phrase, salt, h.mCostKib, h.tCost, h.pCost).value;
    assert f.aead.OpensOnlySealed() && f.aead.SealsIdeally();
    var p := f.aead.open(key, nonce, frame.prefix, frame.ciphertext).value;
    assert frame.ciphertext == f.aead.seal(key, nonce, frame.prefix, p);
  }

  /** Another phrase opens a file only when it derives the same key, and then to the same contents. */
  lemma OtherPhraseNeedsSameKey(f: Formats, bytes: Bytes, phrase: string, other: string)
    requires f.Lawful() && OpenContainer(f, bytes, phrase).Ok?
    ensures var h := f.parse(SplitFrame(bytes).value.header).value;
      var salt := ReadSized(f, h.salt64, SALT_LEN).value;
      OpenContainer(f, bytes, other).Ok? <==>
        f.derive(other, salt, h.mCostKib, h.tCost, h.pCost) == f.derive(phrase, salt, h.mCostKib, h.tCost, h.pCost)
    ensures OpenContainer(f, bytes, other).Ok? ==> OpenContainer(f, bytes, other) == OpenContainer(f, bytes, phrase)
  {
    hide SplitFrame, IsSqlite;
    var frame := SplitFrame(bytes).value;
    var h := f.parse(frame.header).value;
    var salt, nonce := ReadSized(f, h.salt64, SALT_LEN).value, ReadSized(f, h.nonce64, NONCE_LEN).value;
    var k1, k2 := f.derive(phrase, salt, h.mCostKib, h.tCost, h.pCost), f.derive(other, salt, h.mCostKib, h.tCost, h.pCost);
    assert f.aead.OpensOnlySealed() && f.aead.SealsIdeally();
    if OpenContainer(f, bytes, other).Ok? {
      var p1 := f.aead.open(k1.value, nonce, frame.prefix, frame.ciphertext).value;
      var p2 := f.aead.open(k2.value, nonce, frame.prefix, frame.ciphertext).value;
      assert frame.ciphertext == f.aead.seal(k1.value, nonce, frame.prefix, p1);
      assert frame.ciphertext == f.aead.seal(k2.value, nonce, frame.prefix, p2);
    }
  }

  // ---- files -------------------------------------------------------------------------------------------------

  /** The name an existing database is moved to. */
  function WithOld(path: Path): Path {
    WithExtension(path, "old")
  }

  /** The path already is what an existing database would be moved to. */
  predicate HasOld(path: Path) {
    Bare(path) == path && Extension(path) == Some("old")
  }

  lemma WithOldFixpoint(path: Path)
    ensures WithOld(path) == path <==> FileName(path) == "" || HasOld(path)
  {
    assert "old"[0] == 'o' && "old"[1] == 'l' && "old"[2] == 'd';
    WithExtensionFixpoint(path, "old");
  }

  /** The sibling an export is written to first. */
  function PartialPath(path: Path): Path {
    if FileName(path) == "" then path + "/.hvb.partial" else Directory(path) + ("." + FileName(path) + ".partial")
  }

  /** It is a hidden file in the same directory. */
  lemma PartialPathIsSibling(path: Path)
    requires FileName(path) != ""
    ensures Directory(PartialPath(path)) == Directory(path)
    ensures FileName(PartialPath(path)) == "." + FileName(path) + ".partial"
  {
    var name := "." + FileName(path) + ".partial";
    assert |name| > 8 && name[0] == '.';
    NameParts(path);
    NamedPath(Directory(path), name);
  }

  lemma NameParts(path: Path)
    ensures IsDirectory(Directory(path))
    ensures forall i :: 0 <= i < |FileName(path)| ==> FileName(path)[i] != '/'
  {
    hide Bare;
  }

  lemma PartialPathIsOther(path: Path)
    ensures PartialPath(path) != path
  {
    hide Bare, Directory, FileName;
    if FileName(path) != "" {
      PathParts(path);
      var last := "." + FileName(path) + ".partial";
      assert PartialPath(path)[|PartialPath(path)| - 1] == last[|last| - 1] == 'l';
      if PartialPath(path) == path {
        assert path[|path| - 2..][1] == 'l';
        assert Bare(path) == path by {
          BareOfNamed(path);
        }
      }
    }
  }

  lemma BareOfNamed(path: Path)
    requires |path| >= 2 && path[|path| - 1] != '/' && path[|path| - 2..] != "/."
    ensures Bare(path) == path
  {
  }

  /** Which call on the file system fails, if one does: removing a stale file, writing the new one (which
      then holds what was written so far), removing the file in the way, or the rename. */
  datatype DiskFault = NoFault | StaleStays | WriteFails(written: Bytes) | TargetStays | RenameFails

  datatype BackupMetadata = BackupMetadata(sha256Hex: string, plaintextSize: nat)

  /** Regular files by path. A path without a name is a directory at best, so none of them. */
  class Disk {
    var files: map<Path, Bytes>

    constructor (files: map<Path, Bytes>)
      ensures this.files == files
    {
      this.files := files;
    }

    /** Whatever fails, the path never holds anything but the whole of its old or its new contents. The old
        file goes before the new one takes its name, so it is lost exactly when the rename fails. */
    method WriteAtomic(path: Path, bytes: Bytes, fault: DiskFault) returns (r: Result<()>)
      modifies this
      ensures r.Ok? <==>
        && FileName(path) != "" && !fault.WriteFails? && !fault.RenameFails?
        && !(fault.StaleStays? && PartialPath(path) in old(files)) && !(fault.TargetStays? && path in old(files))
      ensures r.Ok? ==> files == (old(files) - {PartialPath(path)})[path := bytes]
      ensures r.Err? && !(fault.StaleStays? && PartialPath(path) in old(files)) ==> PartialPath(path) !in files
      ensures r.Err? ==> LeftWhole(old(files), files, path) && r.error == Io
      ensures r.Err? && path in old(files) && FileName(path) != "" ==> (path !in files <==> fault.RenameFails?)
    {
      PartialPathIsOther(path);
      ghost var before := files;
      WholeCases(before, path);
      hide PartialPath, FileName, LeftWhole;
      var temp := PartialPath(path);
      if temp in files {
        if fault.StaleStays? {
          return Err(Io);
        }
        files := files - {temp};
      }
      if fault.WriteFails? {
        files := files[temp := fault.written];
        files := files - {temp};
        assert files == before - {temp};
        return Err(Io);
      }
      files := files[temp := bytes];
      if path in files {
        if fault.TargetStays? {
          files := files - {temp};
          assert files == before - {temp};
          return Err(Io);
        }
        files := files - {path};
      }
      if fault.RenameFails? || FileName(path) == "" {
        files := files - {temp};
        assert files == before - {temp} - {path};
        return Err(Io);
      }
      files := (files - {temp})[path := files[temp]];
      r := Ok(());
    }

    /** Without a fault it succeeds exactly for a valid phrase, an SQLite source and a backup path with a
        name; then the backup opens with the phrase to the source. A failure leaves no truncated backup, and
        takes an earlier one exactly when it is that of the rename. */
    method ExportHvb(f: Formats, source: Path, backup: Path, phrase: string, fault: DiskFault)
      returns (r: Result<BackupMetadata>)
      requires f.Lawful() && f.SerializesShort()
      requires forall p :: p in files ==> |files[p]| < U64
      modifies this
      ensures r.Ok? ==> f.validPhrase(phrase) && source in old(files) && IsSqlite(old(files)[source])
      ensures fault.NoFault? ==>
        (r.Ok? <==> f.validPhrase(phrase) && source in old(files) && IsSqlite(old(files)[source]) && FileName(backup) != "")
      ensures r.Ok? ==>
        && backup in files && files == (old(files) - {PartialPath(backup)})[backup := files[backup]]
        && OpenContainer(f, files[backup], phrase) == Ok(old(files)[source])
        && AsksFor(f, files[backup], |old(files)[source]|)
        && r.value == BackupMetadata(f.digest(files[backup]), |old(files)[source]|)
      ensures r.Ok? ==> !fault.RenameFails?
      ensures r.Err? ==> LeftWhole(old(files), files, backup)
      ensures r.Err? && backup in old(files) && FileName(backup) != "" ==>
        (backup !in files <==>
           fault.RenameFails? && f.validPhrase(phrase) && source in old(files) && IsSqlite(old(files)[source]))
      ensures !f.validPhrase(phrase) ==> r == Err(InvalidPhrase) && files == old(files)
      ensures f.validPhrase(phrase) && source !in old(files) ==> r == Err(Io) && files == old(files)
      ensures f.validPhrase(phrase) && source in old(files) && !IsSqlite(old(files)[source]) ==>
        r == Err(Validation) && files == old(files)
    {
      hide OpenContainer, Container, AsksFor, Formats.Lawful, Formats.SerializesShort, IsSqlite, PartialPath, FileName;
      if !f.validPhrase(phrase) {
        return Err(InvalidPhrase);
      }
      if source !in files {
        return Err(Io);
      }
      var bytes := files[source];
      if !IsSqlite(bytes) {
        return Err(Validation);
      }
      var salt := GenerateSalt();
      var nonce: Nonce := *;
      ExportOpens(f, bytes, phrase, salt, nonce);
      var key := f.derive(phrase, salt, HVB_DEFAULT_M_COST_KIB, HVB_DEFAULT_T_COST, HVB_DEFAULT_P_COST);
      // The header of an export is short enough for the frame.
      var container := Container(f, bytes, key.value, salt, nonce).value;
      var _ :- WriteAtomic(backup, container, fault);
      var written := files[backup];
      r := match OpenContainer(f, written, phrase)
           case Err(error) => Err(error)
           case Ok(restored) =>
             if restored == bytes then Ok(BackupMetadata(f.digest(written), |bytes|)) else Err(Validation);
    }

    /** The old database is moved aside first. When the name it is moved to is its own, it is removed as a
        stale copy of itself, and the move then fails. In every other case it is still there after any
        failure, in its place or beside it. */
    method ReplaceExistingDatabase(target: Path, plaintext: Bytes, fault: DiskFault) returns (r: Result<()>)
      modifies this
      ensures r.Ok? ==> FileName(target) != "" && !(target in old(files) && HasOld(target))
      ensures fault.NoFault? ==> (r.Ok? <==> FileName(target) != "" && !(target in old(files) && HasOld(target)))
      ensures r.Ok? ==>
        files == (if target in old(files) then old(files)[WithOld(target) := old(files)[target]] else old(files))
          [target := plaintext]
      ensures r.Err? ==> r.error == Io && files - {target, WithOld(target)} == old(files) - {target, WithOld(target)}
      ensures r.Err? && (FileName(target) == "" || (target !in old(files) && !fault.WriteFails?)) ==> files == old(files)
      ensures r.Err? && FileName(target) != "" && target in old(files) ==>
        (StillThere(files, target, old(files)[target]) <==> !HasOld(target) || fault.StaleStays?)
      ensures r.Err? && FileName(target) != "" && target in old(files) && HasOld(target) && !fault.StaleStays? ==>
        files == old(files) - {target}
      ensures fault.WriteFails? && FileName(target) != "" && !(target in old(files) && HasOld(target)) ==>
        files == (if target in old(files) then old(files)[WithOld(target) := old(files)[target]] else old(files))
          [target := fault.written]
    {
      WithOldFixpoint(target);
      hide WithOld, HasOld, FileName;
      if FileName(target) == "" {
        return Err(Io);
      }
      if target in files {
        var oldPath := WithOld(target);
        if oldPath in files {
          if fault.StaleStays? {
            return Err(Io);
          }
          files := files - {oldPath};
        }
        if target !in files || fault.RenameFails? {
          return Err(Io);
        }
        files := (files - {target})[oldPath := files[target]];
      }
      if fault.WriteFails? {
        files := files[target := fault.written];
        return Err(Io);
      }
      files := files[target := plaintext];
      r := Ok(());
    }

    /** On success the target holds the backup's database and the previous one is kept beside it. */
    method ImportHvb(f: Formats, backup: Path, phrase: string, target: Path, fault: DiskFault)
      returns (r: Result<BackupMetadata>)
      modifies this
      ensures r.Ok? ==> f.validPhrase(phrase) && backup in old(files) && OpenContainer(f, old(files)[backup], phrase).Ok?
      ensures fault.NoFault? ==> (r.Ok? <==>
        && f.validPhrase(phrase) && backup in old(files) && OpenContainer(f, old(files)[backup], phrase).Ok?
        && FileName(target) != "" && !(target in old(files) && HasOld(target)))
      ensures r.Ok? ==>
        && target in files && files[target] == OpenContainer(f, old(files)[backup], phrase).value
        && (target in old(files) ==> WithOld(target) in files && files[WithOld(target)] == old(files)[target])
        && files - {target, WithOld(target)} == old(files) - {target, WithOld(target)}
        && r.value == BackupMetadata(f.digest(old(files)[backup]), |files[target]|)
      ensures r.Err? ==> files - {target, WithOld(target)} == old(files) - {target, WithOld(target)}
      ensures r.Err? ==>
        r.error == (if !f.validPhrase(phrase) then InvalidPhrase
                    else if backup in old(files) && OpenContainer(f, old(files)[backup], phrase).Err? then
                      OpenContainer(f, old(files)[backup], phrase).error
                    else Io)
      ensures r.Err? && target in old(files) && !HasOld(target) ==> StillThere(files, target, old(files)[target])
      ensures r.Err? && target !in old(files) && !fault.WriteFails? ==> files == old(files)
      ensures r.Err? && fault.NoFault? ==>
        (if target in files || target !in old(files) then files == old(files)
         else HasOld(target) && files == old(files) - {target})
    {
      WithOldFixpoint(target);
      hide OpenContainer, WithOld, HasOld, FileName;
      if !f.validPhrase(phrase) {
        return Err(InvalidPhrase);
      }
      if backup !in files {
        return Err(Io);
      }
      var bytes := files[backup];
      var plaintext :- OpenContainer(f, bytes, phrase);
      var _ :- ReplaceExistingDatabase(target, plaintext, fault);
      r := Ok(BackupMetadata(f.digest(bytes), |plaintext|));
    }
  }

  /** The contents are at the path or where an import moves them. */
  ghost predicate StillThere(files: map<Path, Bytes>, path: Path, contents: Bytes) {
    (path in files && files[path] == contents) || (WithOld(path) in files && files[WithOld(path)] == contents)
  }

  lemma WholeCases(before: map<Path, Bytes>, path: Path)
    ensures LeftWhole(before, before, path) && LeftWhole(before, before - {PartialPath(path)}, path)
    ensures LeftWhole(before, before - {PartialPath(path)} - {path}, path)
  {
    hide PartialPath;
  }

  /** No other file changed but a partial one that went away; the path holds what it held, or nothing. */
  ghost predicate LeftWhole(before: map<Path, Bytes>, after: map<Path, Bytes>, path: Path) {
    && (forall p :: p in after ==> p in before && after[p] == before[p])
    && (forall p :: p in before && p != path && p != PartialPath(path) ==> p in after)
  }

  // ---- the laws can be met ---------------------------------------------------------------------------------

  function Digits(n: nat): (b: Bytes)
    ensures n == 0 <==> b == []
  {
    if n == 0 then [] else [n % 256] + Digits(n / 256)
  }

  function Value(b: Bytes): nat {
    if b == [] then 0 else b[0] as int + 256 * Value(b[1..])
  }

  lemma {:induction false} ValueOfDigits(n: nat)
    ensures Value(Digits(n)) == n
  {
    if n > 0 {
      ValueOfDigits(n / 256);
      assert Digits(n)[1..] == Digits(n / 256);
    }
  }

  function Power(k: nat): nat {
    if k == 0 then 1 else 256 * Power(k - 1)
  }

  lemma {:induction false} FewDigits(n: nat, k: nat)
    requires n < Power(k)
    ensures |Digits(n)| <= k
  {
    if n > 0 {
      FewDigits(n / 256, k - 1);
    }
  }

  function ToyBase(b: Bytes): (t: string)
    ensures |t| == |b|
  {
    seq(|b|, i requires 0 <= i < |b| => b[i] as char)
  }

  function FromToyBase(t: string): Option<Bytes> {
    if forall i :: 0 <= i < |t| ==> t[i] as int < 256 then
      Some(seq(|t|, i requires 0 <= i < |t| && t[i] as int < 256 => t[i] as int))
    else None
  }

  function Fields(parts: seq<Bytes>): Bytes {
    if parts == [] then [] else Crypto.Frame(parts[0]) + Fields(parts[1..])
  }

  function Unfields(b: Bytes, n: nat): (parts: seq<Bytes>)
    ensures |parts| == n
    decreases n
  {
    if n == 0 then [] else [Unframe(b).0] + Unfields(Unframe(b).1, n - 1)
  }

  lemma {:induction false} UnfieldsFields(parts: seq<Bytes>)
    ensures Unfields(Fields(parts), |parts|) == parts
  {
    if parts != [] {
      UnframeFrame(parts[0], Fields(parts[1..]));
      UnfieldsFields(parts[1..]);
    }
  }

  function ToyParts(h: Header): (parts: seq<Bytes>)
    ensures |parts| == 7
  {
    [ToyCode(h.kdf), Digits(h.mCostKib), Digits(h.tCost), Digits(h.pCost), ToyCode(h.salt64), ToyCode(h.nonce64),
     Digits(h.plaintextSize)]
  }

  function ToySerialize(h: Header): Bytes {
    Fields(ToyParts(h))
  }

  function ToyParse(b: Bytes): Option<Header> {
    HeaderOf(Unfields(b, 7))
  }

  function HeaderOf(parts: seq<Bytes>): Option<Header>
    requires |parts| == 7
  {
    match (ToyDecode(parts[0]), ToyDecode(parts[4]), ToyDecode(parts[5]))
    case (Some(kdf), Some(salt), Some(nonce)) =>
      Some(Header(kdf, Value(parts[1]), Value(parts[2]), Value(parts[3]), salt, nonce, Value(parts[6])))
    case _ => None
  }

  lemma ToyHeaderReadsBack(h: Header)
    ensures ToyParse(ToySerialize(h)) == Some(h)
  {
    hide ToyCode, ToyDecode, Digits, Value, Fields, Unfields;
    UnfieldsFields(ToyParts(h));
    ToyDecodeCode(h.kdf);
    ToyDecodeCode(h.salt64);
    ToyDecodeCode(h.nonce64);
    ValueOfDigits(h.mCostKib);
    ValueOfDigits(h.tCost);
    ValueOfDigits(h.pCost);
    ValueOfDigits(h.plaintextSize);
  }

  function Total(parts: seq<Bytes>): nat {
    if parts == [] then 0 else |parts[0]| + Total(parts[1..])
  }

  lemma {:induction false} FieldsLength(parts: seq<Bytes>)
    ensures |Fields(parts)| == 2 * Total(parts) + |parts|
  {
    if parts != [] {
      FieldsLength(parts[1..]);
    }
  }

  function ToyFormats(): Formats {
    Formats(ToySuite(), (phrase: string, salt: Bytes, m: nat, t: nat, p: nat) => Some(ZERO_KEY),
            ToySerialize, ToyParse, ToyBase, FromToyBase, (phrase: string) => true, (b: Bytes) => "")
  }

  lemma ToyHeaderIsShort(salt: Salt, nonce: Nonce, size: nat)
    requires size < U64
    ensures 1 <= |ToySerialize(ExportHeader(ToyFormats(), salt, nonce, size))| <= HVB_MAX_HEADER_LEN
  {
    var parts := ToyParts(ExportHeader(ToyFormats(), salt, nonce, size));
    FieldsLength(parts);
    PowersOf256();
    FewDigits(HVB_DEFAULT_M_COST_KIB, 8);
    FewDigits(HVB_DEFAULT_T_COST, 8);
    FewDigits(HVB_DEFAULT_P_COST, 8);
    FewDigits(size, 8);
    hide ToyCode, Digits, Fields, Power, Total;
    TotalOfSeven(parts);
  }

  lemma PowersOf256()
    ensures Power(8) == U64
  {
    assert Power(4) == 0x1_0000_0000;
  }

  lemma TotalOfSeven(parts: seq<Bytes>)
    requires |parts| == 7
    ensures Total(parts) == |parts[0]| + |parts[1]| + |parts[2]| + |parts[3]| + |parts[4]| + |parts[5]| + |parts[6]|
  {
    hide Total;
    assert parts[0..] == parts;
    forall i: nat | i < 7
      ensures Total(parts[i..]) == |parts[i]| + Total(parts[i + 1..])
    {
      TotalFrom(parts, i);
    }
    assert Total(parts[7..]) == 0 by { TotalFrom(parts, 7); }
  }

  lemma TotalFrom(parts: seq<Bytes>, i: nat)
    requires i <= |parts|
    ensures Total(parts[i..]) == if i == |parts| then 0 else |parts[i]| + Total(parts[i + 1..])
  {
    assert i < |parts| ==> parts[i..][1..] == parts[i + 1..];
  }

  /** `Formats.Lawful` and `Formats.SerializesShort` can hold together. */
  lemma LawfulFormatsExist()
    ensures exists f: Formats :: f.Lawful() && f.SerializesShort()
  {
    hide ToySerialize, ToyParse, ToySuite, Suite.Ideal;
    var f := ToyFormats();
    ToySuiteIsIdeal();
    forall h: Header ensures f.parse(f.serialize(h)) == Some(h) {
      ToyHeaderReadsBack(h);
    }
    forall b: Bytes ensures f.decode64(f.encode64(b)) == Some(b) {
      var t := ToyBase(b);
      assert FromToyBase(t).Some? && FromToyBase(t).value == b;
    }
    forall salt: Salt, nonce: Nonce, size: nat | size < U64
      ensures 1 <= |f.serialize(ExportHeader(f, salt, nonce, size))| <= HVB_MAX_HEADER_LEN
    {
      ToyHeaderIsShort(salt, nonce, size);
    }
    assert f.Lawful() && f.SerializesShort();
  }
}
