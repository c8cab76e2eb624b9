/** The encrypted-file store: per file a `<id>.crypta` payload and a `<id>.crypta_meta`
    metadata file, which is a small JSON text encrypted under the master key and stored as
    Base64. The streamed payload encryption is not modelled; the directory is a listing of
    (name, text) entries, the IVs are parameters, and every metadata read goes through the
    extractor `x`. */
module Files {
  import opened Wrappers
  import opened Text
  import opened Decimal
  import opened Crypto
  import opened JsonLines
  import opened Sorting

  const EncryptedExtension: string := ".crypta"
  const MetadataExtension: string := ".crypta_meta"

  datatype Metadata = Metadata(
    id: string,
    originalName: string,
    description: string,
    mimeType: string,
    fileExtension: string,
    originalSize: int,
    encryptedSize: int,
    createdAt: int,
    lastModified: int,
    checksum: string
  )

  // ---------------------------------------------------------------- string encryption

  /** `encryptString`: Base64 of the IV followed by the AES-GCM output; the text itself
      without a master key or when encryption fails. */
  function EncryptString(p: Primitives, masterKey: Option<Bytes>, iv: Bytes, text: string): (r: string)
    ensures masterKey.None? ==> r == text
    ensures masterKey.Some? && EncryptText(p, masterKey.value, iv, text).None? ==> r == text
  {
    match masterKey
    case None => text
    case Some(key) => EncryptText(p, key, iv, text).GetOr(text)
  }

  /** `decryptString`: the plaintext; the text itself without a master key or when
      decryption fails. */
  function DecryptString(p: Primitives, masterKey: Option<Bytes>, text: string): (r: string)
    ensures masterKey.None? ==> r == text
    ensures masterKey.Some? && DecryptText(p, masterKey.value, text).None? ==> r == text
  {
    match masterKey
    case None => text
    case Some(key) => DecryptText(p, key, text).GetOr(text)
  }

  /** Decryption inverts encryption, with or without a (32-byte) master key. */
  lemma DecryptEncryptedString(p: Primitives, masterKey: Option<Bytes>, iv: Bytes, text: string)
    requires Sound(p) && |iv| == IvLength
    requires masterKey.Some? ==> |masterKey.value| == KeyLength
    ensures DecryptString(p, masterKey, EncryptString(p, masterKey, iv, text)) == text
  {
    if masterKey.Some? {
      DecryptEncryptedText(p, masterKey.value, iv, text);
    }
  }

  // ---------------------------------------------------------------- metadata layout

  /** The members `saveEncryptedMetadata` writes, in order. */
  function MetadataMembers(m: Metadata): seq<Member> {
    [ Member("id", Quote(m.id)), Member("originalName", Quote(m.originalName)),
      Member("description", Quote(m.description)), Member("mimeType", Quote(m.mimeType)),
      Member("fileExtension", Quote(m.fileExtension)),
      Member("originalSize", IntToString(m.originalSize)), Member("encryptedSize", IntToString(m.encryptedSize)),
      Member("createdAt", IntToString(m.createdAt)), Member("lastModified", IntToString(m.lastModified)),
      Member("checksum", Quote(m.checksum)) ]
  }

  const MetadataKeys: seq<string> :=
    ["id", "originalName", "description", "mimeType", "fileExtension",
     "originalSize", "encryptedSize", "createdAt", "lastModified", "checksum"]

  lemma MetadataKeysSafe()
    ensures forall i, j | 0 <= i < j < |MetadataKeys| :: MetadataKeys[i] != MetadataKeys[j]
    ensures forall i | 0 <= i < |MetadataKeys| :: SafeText(MetadataKeys[i])
  {
  }

  /** The numbers fit the `Long` fields they are parsed into. */
  predicate SizesInRange(m: Metadata) {
    && Int64Min <= m.originalSize <= Int64Max && Int64Min <= m.encryptedSize <= Int64Max
    && Int64Min <= m.createdAt <= Int64Max && Int64Min <= m.lastModified <= Int64Max
  }

  /** Text the layout carries unchanged, and numbers within range. */
  predicate Storable(m: Metadata) {
    && SafeText(m.id) && SafeText(m.originalName) && SafeText(m.description)
    && SafeText(m.mimeType) && SafeText(m.fileExtension) && SafeText(m.checksum)
    && SizesInRange(m)
  }

  lemma MetadataMembersWellFormed(m: Metadata)
    requires Storable(m)
    ensures WellFormed(MetadataMembers(m))
  {
    MetadataKeysSafe();
    MetadataValuesSafe(m);
    var ms := MetadataMembers(m);
    assert forall i | 0 <= i < |ms| :: ms[i].key == MetadataKeys[i];
    WellFormedOf(ms, MetadataKeys);
  }

  lemma MetadataValuesSafe(m: Metadata)
    requires Storable(m)
    ensures forall i | 0 <= i < |MetadataMembers(m)| :: SafeValue(MetadataMembers(m)[i].rendered)
  {
    QuotedIsSafe(m.id);
    QuotedIsSafe(m.originalName);
    QuotedIsSafe(m.description);
    QuotedIsSafe(m.mimeType);
    QuotedIsSafe(m.fileExtension);
    IntegerIsSafe(m.originalSize);
    IntegerIsSafe(m.encryptedSize);
    IntegerIsSafe(m.createdAt);
    IntegerIsSafe(m.lastModified);
    QuotedIsSafe(m.checksum);
  }

  /** The metadata a set of member texts describes, if its numbers parse. */
  function MetadataOf(id: string, name: string, description: string, mime: string, ext: string,
                      size: string, encSize: string, created: string, modified: string, checksum: string): (r: Option<Metadata>)
    ensures r.Some? <==> ParseLong(size).Some? && ParseLong(encSize).Some? && ParseLong(created).Some? && ParseLong(modified).Some?
    ensures r.Some? ==> r.value.id == id && r.value.mimeType == mime && r.value.checksum == checksum
    ensures r.Some? ==> r.value.originalName == name && r.value.description == description && r.value.fileExtension == ext
    ensures r.Some? ==> && r.value.originalSize == ParseLong(size).value && r.value.encryptedSize == ParseLong(encSize).value
                        && r.value.createdAt == ParseLong(created).value && r.value.lastModified == ParseLong(modified).value
  {
    match (ParseLong(size), ParseLong(encSize), ParseLong(created), ParseLong(modified))
    case (Some(s), Some(e), Some(c), Some(l)) => Some(Metadata(id, name, description, mime, ext, s, e, c, l, checksum))
    case _ => None
  }

  /** `parseMetadataJson`: `None` is any thrown exception (a missing key, a bad number). */
  function ParseMetadataJson(x: Extractor, json: string): Option<Metadata> {
    var lines := ParsedLines(json);
    var id, name, description := Extract(x, lines, "id"), Extract(x, lines, "originalName"), Extract(x, lines, "description");
    var mime, ext := Extract(x, lines, "mimeType"), Extract(x, lines, "fileExtension");
    var size, encSize := Extract(x, lines, "originalSize"), Extract(x, lines, "encryptedSize");
    var created, modified := Extract(x, lines, "createdAt"), Extract(x, lines, "lastModified");
    var checksum := Extract(x, lines, "checksum");
    if || id.Failure? || name.Failure? || description.Failure? || mime.Failure? || ext.Failure?
       || size.Failure? || encSize.Failure? || created.Failure? || modified.Failure? || checksum.Failure?
    then None
    else MetadataOf(id.value, name.value, description.value, mime.value, ext.value,
                    size.value, encSize.value, created.value, modified.value, checksum.value)
  }

  /** What a reader makes of the metadata written for `m`: the as-written reader keeps the
      quotes of every text member but the last, and drops a final comma of the checksum. */
  function ReadBack(x: Extractor, m: Metadata): Metadata {
    if x == Corrected then m
    else m.(id := Quote(m.id), originalName := Quote(m.originalName), description := Quote(m.description),
            mimeType := Quote(m.mimeType), fileExtension := Quote(m.fileExtension),
            checksum := RemoveSuffix(m.checksum, ","))
  }

  lemma MetadataIdField(m: Metadata, x: Extractor)
    requires Storable(m)
    ensures Extract(x, ParsedLines(Layout(MetadataMembers(m))), "id") == Success(Reads(x, m.id))
  {
    var ms := MetadataMembers(m);
    MetadataMembersWellFormed(m);
    assert ms[0].key == "id" && ms[0].rendered == Quote(m.id);
    ReadQuoted(ms, 0, m.id, x);
  }

  lemma MetadataNameField(m: Metadata, x: Extractor)
    requires Storable(m)
    ensures Extract(x, ParsedLines(Layout(MetadataMembers(m))), "originalName") == Success(Reads(x, m.originalName))
  {
    var ms := MetadataMembers(m);
    MetadataMembersWellFormed(m);
    assert ms[1].key == "originalName" && ms[1].rendered == Quote(m.originalName);
    ReadQuoted(ms, 1, m.originalName, x);
  }

  lemma MetadataDescriptionField(m: Metadata, x: Extractor)
    requires Storable(m)
    ensures Extract(x, ParsedLines(Layout(MetadataMembers(m))), "description") == Success(Reads(x, m.description))
  {
    var ms := MetadataMembers(m);
    MetadataMembersWellFormed(m);
    assert ms[2].key == "description" && ms[2].rendered == Quote(m.description);
    ReadQuoted(ms, 2, m.description, x);
  }

  lemma MetadataTypeFields(m: Metadata, x: Extractor)
    requires Storable(m)
    ensures var lines := ParsedLines(Layout(MetadataMembers(m)));
            && Extract(x, lines, "mimeType") == Success(Reads(x, m.mimeType))
            && Extract(x, lines, "fileExtension") == Success(Reads(x, m.fileExtension))
  {
    var ms := MetadataMembers(m);
    MetadataMembersWellFormed(m);
    assert ms[3].key == "mimeType" && ms[3].rendered == Quote(m.mimeType);
    ReadQuoted(ms, 3, m.mimeType, x);
    assert ms[4].key == "fileExtension" && ms[4].rendered == Quote(m.fileExtension);
    ReadQuoted(ms, 4, m.fileExtension, x);
  }

  /** Members 5 to 8 are the unquoted numbers. */
  lemma MetadataNumberField(m: Metadata, x: Extractor, i: nat)
    requires Storable(m) && 5 <= i <= 8
    ensures Extract(x, ParsedLines(Layout(MetadataMembers(m))), MetadataMembers(m)[i].key)
            == Success(MetadataMembers(m)[i].rendered)
  {
    var ms := MetadataMembers(m);
    MetadataMembersWellFormed(m);
    assert IsDigit(ms[i].rendered[0]) || ms[i].rendered[0] == '-';
    ReadPlain(ms, i, x);
  }

  lemma MetadataSizeFields(m: Metadata, x: Extractor)
    requires Storable(m)
    ensures var lines := ParsedLines(Layout(MetadataMembers(m)));
            && Extract(x, lines, "originalSize") == Success(IntToString(m.originalSize))
            && Extract(x, lines, "encryptedSize") == Success(IntToString(m.encryptedSize))
  {
    var ms := MetadataMembers(m);
    assert ms[5] == Member("originalSize", IntToString(m.originalSize));
    assert ms[6] == Member("encryptedSize", IntToString(m.encryptedSize));
    MetadataNumberField(m, x, 5);
    MetadataNumberField(m, x, 6);
  }

  lemma MetadataTimeFields(m: Metadata, x: Extractor)
    requires Storable(m)
    ensures var lines := ParsedLines(Layout(MetadataMembers(m)));
            && Extract(x, lines, "createdAt") == Success(IntToString(m.createdAt))
            && Extract(x, lines, "lastModified") == Success(IntToString(m.lastModified))
  {
    var ms := MetadataMembers(m);
    assert ms[7] == Member("createdAt", IntToString(m.createdAt));
    assert ms[8] == Member("lastModified", IntToString(m.lastModified));
    MetadataNumberField(m, x, 7);
    MetadataNumberField(m, x, 8);
  }

  lemma MetadataChecksumField(m: Metadata, x: Extractor)
    requires Storable(m)
    ensures Extract(x, ParsedLines(Layout(MetadataMembers(m))), "checksum")
            == Success(if x == AsWritten then RemoveSuffix(m.checksum, ",") else m.checksum)
  {
    var ms := MetadataMembers(m);
    MetadataMembersWellFormed(m);
    assert ms[9].key == "checksum" && ms[9].rendered == Quote(m.checksum);
    ReadQuotedLast(ms, 9, m.checksum, x);
  }

  /** The numbers of in-range metadata read back from their text. */
  lemma MetadataOfText(m: Metadata)
    requires SizesInRange(m)
    ensures MetadataOf(m.id, m.originalName, m.description, m.mimeType, m.fileExtension,
                       IntToString(m.originalSize), IntToString(m.encryptedSize),
                       IntToString(m.createdAt), IntToString(m.lastModified), m.checksum) == Some(m)
  {
    ParseIntToString(m.originalSize, Int64Min, Int64Max);
    ParseIntToString(m.encryptedSize, Int64Min, Int64Max);
    ParseIntToString(m.createdAt, Int64Min, Int64Max);
    ParseIntToString(m.lastModified, Int64Min, Int64Max);
  }

  /** Reading back the metadata layout: the corrected reader returns the metadata; the
      as-written one returns every text member but the checksum still in quotes, while the
      sizes and times come back unchanged with either reader. */
  lemma ParseMetadataLayout(m: Metadata, x: Extractor)
    requires Storable(m)
    ensures ParseMetadataJson(x, Layout(MetadataMembers(m))) == Some(ReadBack(x, m))
  {
    MetadataIdField(m, x);
    MetadataNameField(m, x);
    MetadataDescriptionField(m, x);
    MetadataTypeFields(m, x);
    MetadataSizeFields(m, x);
    MetadataTimeFields(m, x);
    MetadataChecksumField(m, x);
    MetadataOfText(ReadBack(x, m));
  }

  /** `saveEncryptedMetadata`: the text written to `<id>.crypta_meta`. */
  function SaveEncryptedMetadata(p: Primitives, masterKey: Option<Bytes>, iv: Bytes, m: Metadata): (r: string)
    ensures masterKey.None? ==> r == Layout(MetadataMembers(m))
  {
    EncryptString(p, masterKey, iv, Layout(MetadataMembers(m)))
  }

  /** `loadEncryptedMetadata`. */
  function LoadEncryptedMetadata(p: Primitives, x: Extractor, masterKey: Option<Bytes>, text: string): Option<Metadata> {
    ParseMetadataJson(x, DecryptString(p, masterKey, text))
  }

  /** Saved metadata loads back as the reader returns its layout. */
  lemma LoadSavedMetadata(p: Primitives, x: Extractor, masterKey: Option<Bytes>, iv: Bytes, m: Metadata)
    requires Sound(p) && |iv| == IvLength
    requires masterKey.Some? ==> |masterKey.value| == KeyLength
    requires Storable(m)
    ensures LoadEncryptedMetadata(p, x, masterKey, SaveEncryptedMetadata(p, masterKey, iv, m)) == Some(ReadBack(x, m))
  {
    DecryptEncryptedString(p, masterKey, iv, Layout(MetadataMembers(m)));
    ParseMetadataLayout(m, x);
  }

  // ---------------------------------------------------------------- the directory

  /** An entry of `crypta_encrypted/`. */
  datatype Entry = Entry(name: string, text: string)

  function Names(dir: seq<Entry>): set<string> {
    set e | e in dir :: e.name
  }

  /** The metadata a listing entry holds: files with the metadata extension that decrypt and
      parse. */
  function EntryMetadata(p: Primitives, x: Extractor, masterKey: Option<Bytes>, e: Entry): Option<Metadata> {
    if EndsWith(e.name, MetadataExtension) then LoadEncryptedMetadata(p, x, masterKey, e.text) else None
  }

  /** What `load` yields for the entries of a listing, in listing order. */
  function Collect<T>(load: Entry -> Option<T>, dir: seq<Entry>): (r: seq<T>)
    ensures |r| <= |dir|
  {
    if |dir| == 0 then []
    else (match load(dir[0]) case None => [] case Some(v) => [v]) + Collect(load, dir[1..])
  }

  /** An entry appended to a listing adds what it yields, if anything, at the end. */
  lemma {:induction false} CollectAppend<T>(load: Entry -> Option<T>, dir: seq<Entry>, e: Entry)
    ensures Collect(load, dir + [e]) == Collect(load, dir) + Collect(load, [e])
  {
    if |dir| == 0 {
      assert dir + [e] == [e];
    } else {
      assert (dir + [e])[1..] == dir[1..] + [e];
      CollectAppend(load, dir[1..], e);
    }
  }

  /** The metadata of a listing that loads, in listing order. */
  function LoadedMetadata(p: Primitives, x: Extractor, masterKey: Option<Bytes>, dir: seq<Entry>): (r: seq<Metadata>)
    ensures |r| <= |dir|
  {
    Collect(e => EntryMetadata(p, x, masterKey, e), dir)
  }

  function LastModified(m: Metadata): int {
    m.lastModified
  }

  /** `getEncryptedFiles`: the metadata that loads, most recently modified first. */
  function GetEncryptedFiles(p: Primitives, x: Extractor, masterKey: Option<Bytes>, dir: seq<Entry>): (r: seq<Metadata>)
    ensures forall i, j | 0 <= i < j < |r| :: r[i].lastModified >= r[j].lastModified
    ensures multiset(r) == multiset(LoadedMetadata(p, x, masterKey, dir))
  {
    SortByDescending(LoadedMetadata(p, x, masterKey, dir), LastModified)
  }

  /** An entry appended to a listing adds its metadata, if any, at the end. */
  lemma LoadedMetadataAppend(p: Primitives, x: Extractor, masterKey: Option<Bytes>, dir: seq<Entry>, e: Entry)
    ensures LoadedMetadata(p, x, masterKey, dir + [e])
            == LoadedMetadata(p, x, masterKey, dir) + LoadedMetadata(p, x, masterKey, [e])
  {
    CollectAppend(e => EntryMetadata(p, x, masterKey, e), dir, e);
  }

  /** Metadata saved for a file is listed, as the reader returns it. */
  lemma SavedMetadataIsListed(p: Primitives, x: Extractor, masterKey: Option<Bytes>, iv: Bytes, dir: seq<Entry>, m: Metadata)
    requires Sound(p) && |iv| == IvLength
    requires masterKey.Some? ==> |masterKey.value| == KeyLength
    requires Storable(m)
    ensures var e := Entry(m.id + MetadataExtension, SaveEncryptedMetadata(p, masterKey, iv, m));
            ReadBack(x, m) in multiset(GetEncryptedFiles(p, x, masterKey, dir + [e]))
  {
    var e := Entry(m.id + MetadataExtension, SaveEncryptedMetadata(p, masterKey, iv, m));
    SavedEntryLoads(p, x, masterKey, iv, m);
    LoadedMetadataAppend(p, x, masterKey, dir, e);
    assert LoadedMetadata(p, x, masterKey, [e]) == [ReadBack(x, m)] by {
      assert [e][1..] == [];
    }
  }

  /** The entry written for saved metadata loads on its own. */
  lemma SavedEntryLoads(p: Primitives, x: Extractor, masterKey: Option<Bytes>, iv: Bytes, m: Metadata)
    requires Sound(p) && |iv| == IvLength
    requires masterKey.Some? ==> |masterKey.value| == KeyLength
    requires Storable(m)
    ensures EntryMetadata(p, x, masterKey, Entry(m.id + MetadataExtension, SaveEncryptedMetadata(p, masterKey, iv, m)))
            == Some(ReadBack(x, m))
  {
    var e := Entry(m.id + MetadataExtension, SaveEncryptedMetadata(p, masterKey, iv, m));
    assert EndsWith(e.name, MetadataExtension) by {
      assert e.name[|e.name| - |MetadataExtension|..] == MetadataExtension;
    }
    LoadSavedMetadata(p, x, masterKey, iv, m);
  }

  /** The listing without the entries named `name` that could be deleted. */
  function Without(dir: seq<Entry>, name: string): (r: seq<Entry>)
    ensures Names(r) == Names(dir) - {name}
    ensures |r| <= |dir|
    ensures forall e | e in r :: e in dir
    ensures forall e | e in dir && e.name != name :: e in r
  {
    if |dir| == 0 then []
    else
      var rest := Without(dir[1..], name);
      assert Names(dir) == {dir[0].name} + Names(dir[1..]) by {
        assert dir == [dir[0]] + dir[1..];
      }
      if dir[0].name == name then rest
      else
        assert Names([dir[0]] + rest) == {dir[0].name} + Names(rest) by {
          assert forall e | e in [dir[0]] + rest :: e == dir[0] || e in rest;
        }
        [dir[0]] + rest
  }

  /** `deleteEncryptedFile(fileId)`: `deletes(name)` is whether `File.delete` succeeds on
      that file. True exactly when each of the two files is absent or deleted. */
  function DeleteEncryptedFile(dir: seq<Entry>, fileId: string, deletes: string -> bool): (r: (bool, seq<Entry>))
    ensures var data, meta := fileId + EncryptedExtension, fileId + MetadataExtension;
            && (r.0 <==> (data !in Names(dir) || deletes(data)) && (meta !in Names(dir) || deletes(meta)))
            && (r.0 ==> data !in Names(r.1) && meta !in Names(r.1))
            && Names(dir) - {data, meta} <= Names(r.1) <= Names(dir)
  {
    var data, meta := fileId + EncryptedExtension, fileId + MetadataExtension;
    var afterData := if data in Names(dir) && deletes(data) then Without(dir, data) else dir;
    var afterMeta := if meta in Names(afterData) && deletes(meta) then Without(afterData, meta) else afterData;
    assert data != meta by {
      assert |data| != |meta|;
    }
    ((data !in Names(dir) || deletes(data)) && (meta !in Names(dir) || deletes(meta)), afterMeta)
  }

  // ---------------------------------------------------------------- small helpers

  /** `getFileExtension`: the text after the last '.', or "" without one. */
  function GetFileExtension(fileName: string): (r: string)
    ensures '.' !in fileName ==> r == ""
    ensures '.' in fileName ==> '.' !in r && EndsWith(fileName, "." + r)
  {
    SubstringAfterLast(fileName, '.', "")
  }

  /** The icon of a file. */
  datatype FileIcon = Image | VideoFile | AudioFile | TextSnippet | PictureAsPdf | InsertDriveFile

  /** `getFileIcon`: the first matching rule of image/, video/, audio/, text/ prefixes, then
      "pdf" anywhere, then the generic icon. */
  function GetFileIcon(mimeType: string): (r: FileIcon)
    ensures StartsWith(mimeType, "image/") <==> r == Image
    ensures r == VideoFile <==> !StartsWith(mimeType, "image/") && StartsWith(mimeType, "video/")
    ensures r == AudioFile <==> !StartsWith(mimeType, "image/") && !StartsWith(mimeType, "video/") && StartsWith(mimeType, "audio/")
    ensures r.TextSnippet? <==>
              && !StartsWith(mimeType, "image/") && !StartsWith(mimeType, "video/") && !StartsWith(mimeType, "audio/")
              && StartsWith(mimeType, "text/")
    ensures r.PictureAsPdf? <==>
              && !StartsWith(mimeType, "image/") && !StartsWith(mimeType, "video/") && !StartsWith(mimeType, "audio/")
              && !StartsWith(mimeType, "text/") && Contains(mimeType, "pdf")
    ensures r.InsertDriveFile? <==>
              && !StartsWith(mimeType, "image/") && !StartsWith(mimeType, "video/") && !StartsWith(mimeType, "audio/")
              && !StartsWith(mimeType, "text/") && !Contains(mimeType, "pdf")
  {
    if StartsWith(mimeType, "image/") then Image
    else if StartsWith(mimeType, "video/") then VideoFile
    else if StartsWith(mimeType, "audio/") then AudioFile
    else if StartsWith(mimeType, "text/") then TextSnippet
    else if Contains(mimeType, "pdf") then PictureAsPdf
    else InsertDriveFile
  }
}
