/** Stealth mode and hidden chats.

    Stealth mode is a few preferences: a flag, the disguise, and the hash of a secret code.
    A hidden chat is a directory holding an encrypted `info.crypta` and one JSON file per
    message; its key, derived from a password, is kept Base64-encoded in a preference named
    after the chat while the chat is unlocked. The file system is modelled as maps from chat
    ids to file contents, the clock, UUIDs and IVs are parameters, and every read of a JSON
    file goes through the extractor `x`. */
module Stealth {
  import opened Wrappers
  import opened Text
  import opened Decimal
  import opened Crypto
  import opened JsonLines
  import opened Sorting

  // ---------------------------------------------------------------- stealth preferences

  datatype FakeAppTemplate = FakeAppTemplate(name: string, className: string)

  /** The icon resource of a disguise: the class name after its last '.'. */
  function IconName(t: FakeAppTemplate): (r: string)
    ensures '.' !in t.className ==> r == t.className
    ensures '.' in t.className ==> '.' !in r && EndsWith(t.className, "." + r)
  {
    SubstringAfterLast(t.className, '.', t.className)
  }

  /** The disguises on offer. */
  const FakeAppTemplates: seq<FakeAppTemplate> := [
    FakeAppTemplate("الآلة الحاسبة", "com.calculator.app"),
    FakeAppTemplate("المفكرة", "com.notepad.app"),
    FakeAppTemplate("الطقس", "com.weather.app"),
    FakeAppTemplate("المنبه", "com.alarm.app"),
    FakeAppTemplate("الملفات", "com.files.app"),
    FakeAppTemplate("الإعدادات", "com.settings.app")
  ]

  /** A class name ending in ".app" installs the icon resource "app". */
  lemma AppIconName(t: FakeAppTemplate)
    requires EndsWith(t.className, ".app")
    ensures IconName(t) == "app"
  {
    var c := t.className;
    assert c[|c| - 4] == '.' && c[|c| - 3..] == "app" by {
      assert c[|c| - 4..] == ".app";
    }
    var r := IconName(t);
    assert |r| == 3;
    assert r == c[|c| - 3..];
  }

  /** Every disguise on offer installs the same icon resource, "app". */
  lemma TemplateIconNames()
    ensures forall i | 0 <= i < |FakeAppTemplates| :: IconName(FakeAppTemplates[i]) == "app"
  {
    forall i | 0 <= i < |FakeAppTemplates|
      ensures IconName(FakeAppTemplates[i]) == "app"
    {
      var c := FakeAppTemplates[i].className;
      assert c[|c| - 4..] == ".app";
      AppIconName(FakeAppTemplates[i]);
    }
  }

  datatype Prefs = Prefs(
    enabled: bool,
    fakeAppName: Option<string>,
    fakeAppIcon: Option<string>,
    secretCode: Option<string>,
    decoyContent: bool
  )

  /** `hashSecretCode`: Base64 of the SHA-256 of the UTF-8 bytes. */
  function HashSecretCode(p: Primitives, code: string): string {
    p.base64Encode(p.sha256(p.utf8Encode(code)))
  }

  /** `isStealthModeEnabled()`. */
  predicate IsStealthModeEnabled(prefs: Prefs) {
    prefs.enabled
  }

  /** `enableStealthMode(template, code)`. */
  function EnableStealthMode(p: Primitives, prefs: Prefs, template: FakeAppTemplate, code: string): (r: Prefs)
    ensures IsStealthModeEnabled(r) && r.decoyContent
    ensures r.fakeAppName == Some(template.name) && r.fakeAppIcon == Some(IconName(template))
    ensures r.secretCode == Some(HashSecretCode(p, code))
  {
    Prefs(true, Some(template.name), Some(IconName(template)), Some(HashSecretCode(p, code)), true)
  }

  /** `disableStealthMode()`. */
  function DisableStealthMode(prefs: Prefs): (r: Prefs)
    ensures !IsStealthModeEnabled(r) && !r.decoyContent
    ensures r.fakeAppName.None? && r.fakeAppIcon.None? && r.secretCode.None?
  {
    Prefs(false, None, None, None, false)
  }

  /** `verifySecretCode(input)`: false while no (non-empty) hash is stored, otherwise whether
      the input hashes to the stored value. */
  function VerifySecretCode(p: Primitives, prefs: Prefs, input: string): (r: bool)
    ensures r <==> prefs.secretCode.Some? && prefs.secretCode.value != ""
                   && prefs.secretCode.value == HashSecretCode(p, input)
  {
    var stored := prefs.secretCode.GetOr("");
    if |stored| > 0 then stored == HashSecretCode(p, input) else false
  }

  /** The hash of any code is non-empty text. */
  lemma HashNotEmpty(p: Primitives, code: string)
    requires Sound(p)
    ensures HashSecretCode(p, code) != ""
  {
  }

  /** After enabling, the code it was enabled with is accepted, and so is exactly any code
      with the same hash. */
  lemma VerifyAfterEnable(p: Primitives, prefs: Prefs, template: FakeAppTemplate, code: string, input: string)
    requires Sound(p)
    ensures VerifySecretCode(p, EnableStealthMode(p, prefs, template, code), code)
    ensures VerifySecretCode(p, EnableStealthMode(p, prefs, template, code), input)
            <==> HashSecretCode(p, input) == HashSecretCode(p, code)
  {
    HashNotEmpty(p, code);
  }

  /** After disabling, no code is accepted. */
  lemma NothingVerifiesAfterDisable(p: Primitives, prefs: Prefs, input: string)
    ensures !VerifySecretCode(p, DisableStealthMode(prefs), input)
  {
  }

  // ---------------------------------------------------------------- hidden chats

  datatype ChatInfo = ChatInfo(id: string, name: string, createdAt: int, lastActivity: int, messageCount: int, isLocked: bool)

  datatype HiddenMessage = HiddenMessage(id: string, chatId: string, content: string, isFromUser: bool, timestamp: int, isRead: bool)

  /** A file of a chat's `messages` directory. */
  datatype File = File(name: string, text: string)

  /** The hidden-chat preferences and files. */
  datatype Vault = Vault(
    /** `temp_key_<chat id>`: the chat key in Base64, present while the chat is unlocked. */
    tempKeys: map<string, string>,
    /** The chat directories that exist. */
    chatDirs: set<string>,
    /** `<chat id>/info.crypta`. */
    infoFiles: map<string, string>,
    /** `<chat id>/messages/`, in directory-listing order. */
    messageFiles: map<string, seq<File>>
  )

  /** What an undecryptable hidden message reads as ("encrypted message"). */
  const Undecryptable: string := "رسالة مشفرة"

  /** `saveTemporaryChatKey`. */
  function SaveTemporaryChatKey(p: Primitives, v: Vault, chatId: string, key: Bytes): (r: Vault)
    ensures r == v.(tempKeys := v.tempKeys[chatId := p.base64Encode(key)])
  {
    v.(tempKeys := v.tempKeys[chatId := p.base64Encode(key)])
  }

  /** `getTemporaryChatKey`; text that is not Base64 makes it throw, which each caller treats
      like a missing key, so both are `None`. */
  function GetTemporaryChatKey(p: Primitives, v: Vault, chatId: string): (r: Option<Bytes>)
    ensures chatId !in v.tempKeys ==> r.None?
    ensures chatId in v.tempKeys ==> r == p.base64Decode(v.tempKeys[chatId])
  {
    if chatId in v.tempKeys then p.base64Decode(v.tempKeys[chatId]) else None
  }

  /** A saved key is read back, and saving it affects no other chat's key. */
  lemma TemporaryKeyRoundTrip(p: Primitives, v: Vault, chatId: string, key: Bytes, other: string)
    requires Sound(p)
    ensures GetTemporaryChatKey(p, SaveTemporaryChatKey(p, v, chatId, key), chatId) == Some(key)
    ensures other != chatId ==>
              GetTemporaryChatKey(p, SaveTemporaryChatKey(p, v, chatId, key), other) == GetTemporaryChatKey(p, v, other)
  {
  }

  /** `removeTemporaryChatKey`, which is all `lockHiddenChat` does. */
  function LockHiddenChat(v: Vault, chatId: string): (r: Vault)
    ensures r.tempKeys.Keys == v.tempKeys.Keys - {chatId}
    ensures forall c | c in r.tempKeys :: r.tempKeys[c] == v.tempKeys[c]
    ensures r.chatDirs == v.chatDirs && r.infoFiles == v.infoFiles && r.messageFiles == v.messageFiles
  {
    v.(tempKeys := v.tempKeys - {chatId})
  }

  /** `deleteHiddenChat(chatId, password)`: only with the password that opens the chat's
      info, the chat's directory and key are removed. */
  function DeleteHiddenChat(p: Primitives, x: Extractor, v: Vault, chatId: string, password: string): (r: (bool, Vault))
    ensures r.0 <==> LoadHiddenChatInfo(p, x, v, chatId, DeriveKeyFromPassword(p, password, chatId)).Some?
    ensures !r.0 ==> r.1 == v
    ensures r.0 ==> && r.1.chatDirs == v.chatDirs - {chatId} && r.1.tempKeys.Keys == v.tempKeys.Keys - {chatId}
                    && r.1.infoFiles.Keys == v.infoFiles.Keys - {chatId} && r.1.messageFiles.Keys == v.messageFiles.Keys - {chatId}
  {
    match LoadHiddenChatInfo(p, x, v, chatId, DeriveKeyFromPassword(p, password, chatId))
    case None => (false, v)
    case Some(_) =>
      (true, Vault(v.tempKeys - {chatId}, v.chatDirs - {chatId}, v.infoFiles - {chatId}, v.messageFiles - {chatId}))
  }

  /** `clearTemporaryKeys()`: every chat is locked. */
  function ClearTemporaryKeys(v: Vault): (r: Vault)
    ensures forall c :: c !in r.tempKeys
    ensures r.chatDirs == v.chatDirs && r.infoFiles == v.infoFiles && r.messageFiles == v.messageFiles
  {
    v.(tempKeys := map[])
  }

  /** `deriveKeyFromPassword(password, salt)`: 32 bytes of HKDF-SHA256 with the salt text
      followed by "CryptaHiddenChat2024" as salt and "CryptaHiddenChatKey" as info. */
  function DeriveKeyFromPassword(p: Primitives, password: string, salt: string): (r: Bytes)
    ensures r == p.hkdf(p.utf8Encode(password), Some(p.utf8Encode(salt + "CryptaHiddenChat2024")),
                        p.utf8Encode("CryptaHiddenChatKey"), KeyLength)
    ensures Sound(p) ==> |r| == KeyLength
  {
    p.hkdf(p.utf8Encode(password), Some(p.utf8Encode(salt + "CryptaHiddenChat2024")),
           p.utf8Encode("CryptaHiddenChatKey"), KeyLength)
  }

  /** `encryptMessage`: the framed ciphertext in Base64, or the text itself when encryption
      fails. */
  function EncryptMessage(p: Primitives, text: string, key: Bytes, iv: Bytes): (r: string)
    ensures EncryptText(p, key, iv, text).None? ==> r == text
    ensures EncryptText(p, key, iv, text).Some? ==> r == EncryptText(p, key, iv, text).value
  {
    EncryptText(p, key, iv, text).GetOr(text)
  }

  /** `decryptMessage`: the plaintext, or the placeholder when decryption fails. */
  function DecryptMessage(p: Primitives, text: string, key: Bytes): (r: string)
    ensures DecryptText(p, key, text).None? ==> r == Undecryptable
    ensures DecryptText(p, key, text).Some? ==> r == DecryptText(p, key, text).value
  {
    DecryptText(p, key, text).GetOr(Undecryptable)
  }

  /** The members of `info.crypta` before encryption. */
  function InfoMembers(info: ChatInfo): seq<Member> {
    [ Member("id", Quote(info.id)), Member("name", Quote(info.name)),
      Member("createdAt", IntToString(info.createdAt)), Member("lastActivity", IntToString(info.lastActivity)),
      Member("messageCount", IntToString(info.messageCount)), Member("isLocked", BoolToString(info.isLocked)) ]
  }

  /** The info a set of member texts describes, if its numbers parse. */
  function InfoOf(id: string, name: string, created: string, last: string, count: string, locked: string): (r: Option<ChatInfo>)
    ensures r.Some? ==> r.value.id == id && r.value.name == name && r.value.isLocked == ToBoolean(locked)
    ensures r.Some? <==> ParseLong(created).Some? && ParseLong(last).Some? && ParseInt(count).Some?
    ensures r.Some? ==> Int64Min <= r.value.createdAt <= Int64Max && Int32Min <= r.value.messageCount <= Int32Max
  {
    match (ParseLong(created), ParseLong(last), ParseInt(count))
    case (Some(c), Some(l), Some(n)) => Some(ChatInfo(id, name, c, l, n, ToBoolean(locked)))
    case _ => None
  }

  /** `parseHiddenChatInfo`: `None` is any thrown exception (a missing key, a bad number). */
  function ParseHiddenChatInfo(x: Extractor, json: string): (r: Option<ChatInfo>)
    ensures r.Some? ==> Int64Min <= r.value.createdAt <= Int64Max && Int32Min <= r.value.messageCount <= Int32Max
  {
    var lines := ParsedLines(json);
    var id, name := Extract(x, lines, "id"), Extract(x, lines, "name");
    var created, last := Extract(x, lines, "createdAt"), Extract(x, lines, "lastActivity");
    var count, locked := Extract(x, lines, "messageCount"), Extract(x, lines, "isLocked");
    if id.Failure? || name.Failure? || created.Failure? || last.Failure? || count.Failure? || locked.Failure? then None
    else InfoOf(id.value, name.value, created.value, last.value, count.value, locked.value)
  }

  /** Text the JSON layout carries unchanged and numbers within their JVM types. */
  predicate Storable(info: ChatInfo) {
    SafeText(info.id) && SafeText(info.name) && NumbersInRange(info)
  }

  /** The numbers fit the `Long` and `Int` fields they are parsed into. */
  predicate NumbersInRange(info: ChatInfo) {
    && Int64Min <= info.createdAt <= Int64Max && Int64Min <= info.lastActivity <= Int64Max
    && Int32Min <= info.messageCount <= Int32Max
  }

  const InfoKeys: seq<string> := ["id", "name", "createdAt", "lastActivity", "messageCount", "isLocked"]

  lemma InfoKeysSafe()
    ensures forall i, j | 0 <= i < j < |InfoKeys| :: InfoKeys[i] != InfoKeys[j]
    ensures forall i | 0 <= i < |InfoKeys| :: SafeText(InfoKeys[i])
  {
  }

  lemma InfoMembersWellFormed(info: ChatInfo)
    requires Storable(info)
    ensures WellFormed(InfoMembers(info))
  {
    InfoKeysSafe();
    InfoValuesSafe(info);
    var ms := InfoMembers(info);
    assert forall i | 0 <= i < |ms| :: ms[i].key == InfoKeys[i];
    WellFormedOf(ms, InfoKeys);
  }

  lemma InfoValuesSafe(info: ChatInfo)
    requires Storable(info)
    ensures forall i | 0 <= i < |InfoMembers(info)| :: SafeValue(InfoMembers(info)[i].rendered)
  {
    QuotedIsSafe(info.id);
    QuotedIsSafe(info.name);
    IntegerIsSafe(info.createdAt);
    IntegerIsSafe(info.lastActivity);
    IntegerIsSafe(info.messageCount);
    BooleanIsSafe(info.isLocked);
  }

  /** The text the quoted info members read back as. */
  lemma InfoIdField(info: ChatInfo, x: Extractor)
    requires Storable(info)
    ensures Extract(x, ParsedLines(Layout(InfoMembers(info))), "id")
            == Success(Reads(x, info.id))
  {
    var ms := InfoMembers(info);
    InfoMembersWellFormed(info);
    assert ms[0].key == "id" && ms[0].rendered == Quote(info.id);
    ReadQuoted(ms, 0, info.id, x);
  }

  lemma InfoNameField(info: ChatInfo, x: Extractor)
    requires Storable(info)
    ensures Extract(x, ParsedLines(Layout(InfoMembers(info))), "name")
            == Success(Reads(x, info.name))
  {
    var ms := InfoMembers(info);
    InfoMembersWellFormed(info);
    assert ms[1].key == "name" && ms[1].rendered == Quote(info.name);
    ReadQuoted(ms, 1, info.name, x);
  }

  lemma InfoNumberFields(info: ChatInfo, x: Extractor)
    requires Storable(info)
    ensures var lines := ParsedLines(Layout(InfoMembers(info)));
            && Extract(x, lines, "createdAt") == Success(IntToString(info.createdAt))
            && Extract(x, lines, "lastActivity") == Success(IntToString(info.lastActivity))
            && Extract(x, lines, "messageCount") == Success(IntToString(info.messageCount))
            && Extract(x, lines, "isLocked") == Success(BoolToString(info.isLocked))
  {
    var ms := InfoMembers(info);
    InfoMembersWellFormed(info);
    ReadPlain(ms, 2, x);
    ReadPlain(ms, 3, x);
    ReadPlain(ms, 4, x);
    ReadPlain(ms, 5, x);
  }

  /** The numbers of a storable info read back from their text. */
  lemma InfoOfText(info: ChatInfo)
    requires NumbersInRange(info)
    ensures InfoOf(info.id, info.name, IntToString(info.createdAt), IntToString(info.lastActivity),
                   IntToString(info.messageCount), BoolToString(info.isLocked)) == Some(info)
  {
    ParseIntToString(info.createdAt, Int64Min, Int64Max);
    ParseIntToString(info.lastActivity, Int64Min, Int64Max);
    ParseIntToString(info.messageCount, Int32Min, Int32Max);
    ToBooleanOfString(info.isLocked);
  }

  /** The info a text with the given member values parses to. */
  lemma ParseInfoFields(x: Extractor, json: string, info: ChatInfo)
    requires NumbersInRange(info)
    requires var lines := ParsedLines(json);
             && Extract(x, lines, "id") == Success(info.id) && Extract(x, lines, "name") == Success(info.name)
             && Extract(x, lines, "createdAt") == Success(IntToString(info.createdAt))
             && Extract(x, lines, "lastActivity") == Success(IntToString(info.lastActivity))
             && Extract(x, lines, "messageCount") == Success(IntToString(info.messageCount))
             && Extract(x, lines, "isLocked") == Success(BoolToString(info.isLocked))
    ensures ParseHiddenChatInfo(x, json) == Some(info)
  {
    InfoOfText(info);
  }

  /** Reading back the info layout: the corrected reader returns the info; the as-written
      one returns it with the id and the name still in quotes. */
  lemma ParseInfoLayout(info: ChatInfo, x: Extractor)
    requires Storable(info)
    ensures ParseHiddenChatInfo(x, Layout(InfoMembers(info)))
            == Some(if x == AsWritten then info.(id := Quote(info.id), name := Quote(info.name)) else info)
  {
    InfoIdField(info, x);
    InfoNameField(info, x);
    InfoNumberFields(info, x);
    var read := if x == AsWritten then info.(id := Quote(info.id), name := Quote(info.name)) else info;
    ParseInfoFields(x, Layout(InfoMembers(info)), read);
  }

  /** `saveHiddenChatInfo`: written under the directory named by the info's own id; when
      that directory does not exist, the write throws and nothing changes. */
  function SaveHiddenChatInfo(p: Primitives, v: Vault, info: ChatInfo, key: Bytes, iv: Bytes): (r: Vault)
    ensures info.id !in v.chatDirs ==> r == v
    ensures info.id in v.chatDirs ==>
              r == v.(infoFiles := v.infoFiles[info.id := EncryptMessage(p, Layout(InfoMembers(info)), key, iv)])
  {
    if info.id in v.chatDirs then
      v.(infoFiles := v.infoFiles[info.id := EncryptMessage(p, Layout(InfoMembers(info)), key, iv)])
    else v
  }

  /** `loadHiddenChatInfo`. */
  function LoadHiddenChatInfo(p: Primitives, x: Extractor, v: Vault, chatId: string, key: Bytes): (r: Option<ChatInfo>)
    ensures chatId !in v.infoFiles ==> r.None?
  {
    if chatId !in v.infoFiles then None
    else ParseHiddenChatInfo(x, DecryptMessage(p, v.infoFiles[chatId], key))
  }

  /** Info saved under a 32-byte key loads back as the reader returns its layout. */
  lemma LoadSavedInfo(p: Primitives, x: Extractor, v: Vault, info: ChatInfo, key: Bytes, iv: Bytes)
    requires Sound(p) && |key| == KeyLength && |iv| == IvLength
    requires Storable(info) && info.id in v.chatDirs
    ensures LoadHiddenChatInfo(p, x, SaveHiddenChatInfo(p, v, info, key, iv), info.id, key)
            == ParseHiddenChatInfo(x, Layout(InfoMembers(info)))
  {
    DecryptEncryptedText(p, key, iv, Layout(InfoMembers(info)));
  }

  /** `createHiddenChat(name, password)` with the fresh UUID `chatId`. */
  function CreateHiddenChat(p: Primitives, v: Vault, name: string, password: string, chatId: string, now: int, iv: Bytes): (r: (string, Vault))
    ensures r.0 == chatId && chatId in r.1.chatDirs && chatId in r.1.tempKeys
    ensures r.1.messageFiles == v.messageFiles
  {
    var key := DeriveKeyFromPassword(p, password, chatId);
    var v1 := v.(chatDirs := v.chatDirs + {chatId});
    var v2 := SaveHiddenChatInfo(p, v1, ChatInfo(chatId, name, now, now, 0, false), key, iv);
    (chatId, SaveTemporaryChatKey(p, v2, chatId, key))
  }

  /** The info of a newly created hidden chat. */
  function NewInfo(chatId: string, name: string, now: int): ChatInfo {
    ChatInfo(chatId, name, now, now, 0, false)
  }

  /** `unlockHiddenChat(chatId, password)`: when the info loads with the derived key, keep the
      key and save the info as unlocked and active now. */
  function UnlockHiddenChat(p: Primitives, x: Extractor, v: Vault, chatId: string, password: string, now: int, iv: Bytes): (r: (bool, Vault))
    ensures var key := DeriveKeyFromPassword(p, password, chatId);
            && (r.0 <==> LoadHiddenChatInfo(p, x, v, chatId, key).Some?)
            && (r.0 ==> chatId in r.1.tempKeys && r.1.tempKeys[chatId] == p.base64Encode(key))
            && (!r.0 ==> r.1 == v)
  {
    var key := DeriveKeyFromPassword(p, password, chatId);
    match LoadHiddenChatInfo(p, x, v, chatId, key)
    case None => (false, v)
    case Some(info) =>
      var v1 := SaveTemporaryChatKey(p, v, chatId, key);
      (true, SaveHiddenChatInfo(p, v1, info.(lastActivity := now, isLocked := false), key, iv))
  }

  /** The info after one more message at time `now`. */
  function Touched(info: ChatInfo, now: int): (r: ChatInfo)
    ensures r.id == info.id && r.name == info.name && r.createdAt == info.createdAt && r.isLocked == info.isLocked
    ensures r.lastActivity == now
    ensures Int32Min <= info.messageCount < Int32Max ==> r.messageCount == info.messageCount + 1
    ensures info.messageCount == Int32Max ==> r.messageCount == Int32Min
  {
    info.(lastActivity := now, messageCount := WrapInt32(info.messageCount + 1))
  }

  /** `updateHiddenChatActivity(chatId, key)`. */
  function UpdateHiddenChatActivity(p: Primitives, x: Extractor, v: Vault, chatId: string, key: Bytes, now: int, iv: Bytes): (r: Vault)
    ensures r.tempKeys == v.tempKeys && r.chatDirs == v.chatDirs && r.messageFiles == v.messageFiles
  {
    match LoadHiddenChatInfo(p, x, v, chatId, key)
    case None => v
    case Some(info) => SaveHiddenChatInfo(p, v, Touched(info, now), key, iv)
  }

  /** The members of a message file. */
  function MessageMembers(m: HiddenMessage): seq<Member> {
    [ Member("id", Quote(m.id)), Member("chatId", Quote(m.chatId)), Member("content", Quote(m.content)),
      Member("isFromUser", BoolToString(m.isFromUser)), Member("timestamp", IntToString(m.timestamp)),
      Member("isRead", BoolToString(m.isRead)) ]
  }

  /** `saveHiddenMessage`: `<chat id>/messages/<id>.crypta`, creating the directories. */
  function SaveHiddenMessage(v: Vault, m: HiddenMessage): (r: Vault)
    ensures m.chatId in r.chatDirs && r.infoFiles == v.infoFiles && r.tempKeys == v.tempKeys
    ensures r.messageFiles.Keys == v.messageFiles.Keys + {m.chatId}
    ensures r.messageFiles[m.chatId]
            == (if m.chatId in v.messageFiles then v.messageFiles[m.chatId] else [])
               + [File(m.id + ".crypta", Layout(MessageMembers(m)))]
  {
    var files := if m.chatId in v.messageFiles then v.messageFiles[m.chatId] else [];
    v.(chatDirs := v.chatDirs + {m.chatId},
       messageFiles := v.messageFiles[m.chatId := files + [File(m.id + ".crypta", Layout(MessageMembers(m)))]])
  }

  /** `addMessageToHiddenChat`: refused while the chat is locked; otherwise the encrypted
      message is stored and the chat's activity updated. */
  function AddMessageToHiddenChat(p: Primitives, x: Extractor, v: Vault, chatId: string, message: string, isFromUser: bool,
                                  messageId: string, now: int, iv: Bytes, infoIv: Bytes): (r: (bool, Vault))
    ensures GetTemporaryChatKey(p, v, chatId).None? ==> r == (false, v)
    ensures r.0 <==> GetTemporaryChatKey(p, v, chatId).Some?
    ensures r.0 ==> r.1.tempKeys == v.tempKeys && chatId in r.1.messageFiles
  {
    match GetTemporaryChatKey(p, v, chatId)
    case None => (false, v)
    case Some(key) =>
      var m := HiddenMessage(messageId, chatId, EncryptMessage(p, message, key, iv), isFromUser, now, false);
      (true, UpdateHiddenChatActivity(p, x, SaveHiddenMessage(v, m), chatId, key, now, infoIv))
  }

  /** The message a set of member texts describes, if its timestamp parses. */
  function MessageOf(id: string, chatId: string, content: string, fromUser: string, time: string, read: string): (r: Option<HiddenMessage>)
    ensures r.Some? <==> ParseLong(time).Some?
    ensures r.Some? ==> r.value.id == id && r.value.chatId == chatId && r.value.content == content
  {
    match ParseLong(time)
    case None => None
    case Some(t) => Some(HiddenMessage(id, chatId, content, ToBoolean(fromUser), t, ToBoolean(read)))
  }

  /** `parseHiddenMessage`: the content is decrypted with the chat key; `None` is any thrown
      exception. */
  function ParseHiddenMessage(p: Primitives, x: Extractor, json: string, key: Bytes): Option<HiddenMessage> {
    var lines := ParsedLines(json);
    var content, id, chatId := Extract(x, lines, "content"), Extract(x, lines, "id"), Extract(x, lines, "chatId");
    var fromUser, time, read := Extract(x, lines, "isFromUser"), Extract(x, lines, "timestamp"), Extract(x, lines, "isRead");
    if content.Failure? || id.Failure? || chatId.Failure? || fromUser.Failure? || time.Failure? || read.Failure? then None
    else MessageOf(id.value, chatId.value, DecryptMessage(p, content.value, key), fromUser.value, time.value, read.value)
  }

  const MessageKeys: seq<string> := ["id", "chatId", "content", "isFromUser", "timestamp", "isRead"]

  lemma MessageKeysSafe()
    ensures forall i, j | 0 <= i < j < |MessageKeys| :: MessageKeys[i] != MessageKeys[j]
    ensures forall i | 0 <= i < |MessageKeys| :: SafeText(MessageKeys[i])
  {
  }

  /** Text the message layout carries unchanged and a timestamp within a `Long`. */
  predicate StorableMessage(m: HiddenMessage) {
    SafeText(m.id) && SafeText(m.chatId) && SafeText(m.content) && Int64Min <= m.timestamp <= Int64Max
  }

  lemma MessageMembersWellFormed(m: HiddenMessage)
    requires StorableMessage(m)
    ensures WellFormed(MessageMembers(m))
  {
    MessageKeysSafe();
    MessageValuesSafe(m);
    var ms := MessageMembers(m);
    assert forall i | 0 <= i < |ms| :: ms[i].key == MessageKeys[i];
    WellFormedOf(ms, MessageKeys);
  }

  lemma MessageValuesSafe(m: HiddenMessage)
    requires StorableMessage(m)
    ensures forall i | 0 <= i < |MessageMembers(m)| :: SafeValue(MessageMembers(m)[i].rendered)
  {
    QuotedIsSafe(m.id);
    QuotedIsSafe(m.chatId);
    QuotedIsSafe(m.content);
    BooleanIsSafe(m.isFromUser);
    IntegerIsSafe(m.timestamp);
    BooleanIsSafe(m.isRead);
  }

  lemma MessageIdField(m: HiddenMessage, x: Extractor)
    requires StorableMessage(m)
    ensures Extract(x, ParsedLines(Layout(MessageMembers(m))), "id") == Success(Reads(x, m.id))
  {
    var ms := MessageMembers(m);
    MessageMembersWellFormed(m);
    assert ms[0].key == "id" && ms[0].rendered == Quote(m.id);
    ReadQuoted(ms, 0, m.id, x);
  }

  lemma MessageChatIdField(m: HiddenMessage, x: Extractor)
    requires StorableMessage(m)
    ensures Extract(x, ParsedLines(Layout(MessageMembers(m))), "chatId") == Success(Reads(x, m.chatId))
  {
    var ms := MessageMembers(m);
    MessageMembersWellFormed(m);
    assert ms[1].key == "chatId" && ms[1].rendered == Quote(m.chatId);
    ReadQuoted(ms, 1, m.chatId, x);
  }

  lemma MessageContentField(m: HiddenMessage, x: Extractor)
    requires StorableMessage(m)
    ensures Extract(x, ParsedLines(Layout(MessageMembers(m))), "content") == Success(Reads(x, m.content))
  {
    var ms := MessageMembers(m);
    MessageMembersWellFormed(m);
    assert ms[2].key == "content" && ms[2].rendered == Quote(m.content);
    ReadQuoted(ms, 2, m.content, x);
  }

  lemma MessagePlainFields(m: HiddenMessage, x: Extractor)
    requires StorableMessage(m)
    ensures var lines := ParsedLines(Layout(MessageMembers(m)));
            && Extract(x, lines, "isFromUser") == Success(BoolToString(m.isFromUser))
            && Extract(x, lines, "timestamp") == Success(IntToString(m.timestamp))
            && Extract(x, lines, "isRead") == Success(BoolToString(m.isRead))
  {
    var ms := MessageMembers(m);
    MessageMembersWellFormed(m);
    ReadPlain(ms, 3, x);
    ReadPlain(ms, 4, x);
    ReadPlain(ms, 5, x);
  }

  /** Reading back a message file: the corrected reader returns the message with its content
      decrypted; the as-written one keeps the id and the chat id in quotes and decrypts the
      content with its quotes. */
  lemma ParseMessageLayout(p: Primitives, m: HiddenMessage, key: Bytes, x: Extractor)
    requires StorableMessage(m)
    ensures ParseHiddenMessage(p, x, Layout(MessageMembers(m)), key)
            == Some(m.(id := Reads(x, m.id), chatId := Reads(x, m.chatId), content := DecryptMessage(p, Reads(x, m.content), key)))
  {
    MessageIdField(m, x);
    MessageChatIdField(m, x);
    MessageContentField(m, x);
    MessagePlainFields(m, x);
    ParseIntToString(m.timestamp, Int64Min, Int64Max);
    ToBooleanOfString(m.isFromUser);
    ToBooleanOfString(m.isRead);
  }

  /** The messages of a listing that end in ".crypta" and parse, in listing order. */
  function ParsedMessages(p: Primitives, x: Extractor, files: seq<File>, key: Bytes): (r: seq<HiddenMessage>)
    ensures |r| <= |files|
  {
    if |files| == 0 then []
    else
      var rest := ParsedMessages(p, x, files[1..], key);
      if !EndsWith(files[0].name, ".crypta") then rest
      else
        match ParseHiddenMessage(p, x, files[0].text, key)
        case None => rest
        case Some(m) => [m] + rest
  }

  /** A file appended to a listing adds its message, if any, at the end. */
  lemma {:induction false} ParsedMessagesAppend(p: Primitives, x: Extractor, files: seq<File>, f: File, key: Bytes)
    ensures ParsedMessages(p, x, files + [f], key) == ParsedMessages(p, x, files, key) + ParsedMessages(p, x, [f], key)
    decreases |files|
  {
    if |files| == 0 {
      assert files + [f] == [f];
    } else {
      assert (files + [f])[1..] == files[1..] + [f];
      ParsedMessagesAppend(p, x, files[1..], f, key);
    }
  }

  function Timestamp(m: HiddenMessage): int {
    m.timestamp
  }

  /** `loadHiddenMessages`: the parsable messages, oldest first. */
  function LoadHiddenMessages(p: Primitives, x: Extractor, files: seq<File>, key: Bytes): (r: seq<HiddenMessage>)
    ensures SortedBy(r, Timestamp)
    ensures multiset(r) == multiset(ParsedMessages(p, x, files, key))
  {
    SortBy(ParsedMessages(p, x, files, key), Timestamp)
  }

  /** `getHiddenChatMessages`: nothing while the chat is locked. */
  function GetHiddenChatMessages(p: Primitives, x: Extractor, v: Vault, chatId: string): (r: seq<HiddenMessage>)
    ensures GetTemporaryChatKey(p, v, chatId).None? ==> r == []
    ensures SortedBy(r, Timestamp)
  {
    match GetTemporaryChatKey(p, v, chatId)
    case None => []
    case Some(key) => LoadHiddenMessages(p, x, if chatId in v.messageFiles then v.messageFiles[chatId] else [], key)
  }

  /** Locking a chat refuses new messages and hides the stored ones. */
  lemma LockedChatIsClosed(p: Primitives, x: Extractor, v: Vault, chatId: string, message: string, isFromUser: bool,
                           messageId: string, now: int, iv: Bytes, infoIv: Bytes)
    ensures var locked := LockHiddenChat(v, chatId);
            && AddMessageToHiddenChat(p, x, locked, chatId, message, isFromUser, messageId, now, iv, infoIv) == (false, locked)
            && GetHiddenChatMessages(p, x, locked, chatId) == []
  {
  }

  // ---------------------------------------------------------------- the activity update

  /** A created chat whose key is still present, as `createHiddenChat` leaves it. */
  lemma CreatedChat(p: Primitives, v: Vault, name: string, password: string, chatId: string, now: int, iv: Bytes)
    requires Sound(p) && |iv| == IvLength
    requires Storable(NewInfo(chatId, name, now))
    ensures var c := CreateHiddenChat(p, v, name, password, chatId, now, iv).1;
            var key := DeriveKeyFromPassword(p, password, chatId);
            && GetTemporaryChatKey(p, c, chatId) == Some(key)
            && c.chatDirs == v.chatDirs + {chatId}
            && chatId in c.infoFiles
            && c.infoFiles[chatId] == EncryptMessage(p, Layout(InfoMembers(NewInfo(chatId, name, now))), key, iv)
  {
  }

  /** As written, the info read back carries its id in quotes, so the update is saved under
      a directory that does not exist and is lost: after a message is added to a new chat
      the stored info is unchanged and still counts no message. */
  lemma AddMessageLosesActivity(p: Primitives, v: Vault, name: string, password: string, chatId: string, now: int,
                                iv: Bytes, message: string, messageId: string, later: int, msgIv: Bytes, infoIv: Bytes)
    requires Sound(p) && |iv| == IvLength
    requires Storable(NewInfo(chatId, name, now))
    requires Quote(chatId) !in v.chatDirs
    ensures var c := CreateHiddenChat(p, v, name, password, chatId, now, iv).1;
            var r := AddMessageToHiddenChat(p, AsWritten, c, chatId, message, true, messageId, later, msgIv, infoIv);
            && r.0
            && r.1.infoFiles == c.infoFiles
            && LoadHiddenChatInfo(p, Corrected, r.1, chatId, DeriveKeyFromPassword(p, password, chatId))
               == Some(NewInfo(chatId, name, now))
  {
    var info := NewInfo(chatId, name, now);
    var key := DeriveKeyFromPassword(p, password, chatId);
    var c := CreateHiddenChat(p, v, name, password, chatId, now, iv).1;
    CreatedChat(p, v, name, password, chatId, now, iv);
    var m := HiddenMessage(messageId, chatId, EncryptMessage(p, message, key, msgIv), true, later, false);
    var s := SaveHiddenMessage(c, m);
    DecryptEncryptedText(p, key, iv, Layout(InfoMembers(info)));
    ParseInfoLayout(info, AsWritten);
    ParseInfoLayout(info, Corrected);
    var read := info.(id := Quote(chatId), name := Quote(name));
    assert LoadHiddenChatInfo(p, AsWritten, s, chatId, key) == Some(read);
    assert |Quote(chatId)| != |chatId|;
    assert Touched(read, later).id !in s.chatDirs;
  }

  /** With the corrected reader, the activity update is stored under the chat's own
      directory and reads back as the touched info. */
  lemma UpdateActivityPersists(p: Primitives, v: Vault, info: ChatInfo, key: Bytes, now: int, iv: Bytes)
    requires Sound(p) && |key| == KeyLength && |iv| == IvLength
    requires Storable(info) && info.id in v.chatDirs
    requires LoadHiddenChatInfo(p, Corrected, v, info.id, key) == Some(info)
    requires Int32Min <= info.messageCount < Int32Max && Int64Min <= now <= Int64Max
    ensures LoadHiddenChatInfo(p, Corrected, UpdateHiddenChatActivity(p, Corrected, v, info.id, key, now, iv), info.id, key)
            == Some(Touched(info, now))
  {
    var touched := Touched(info, now);
    assert Storable(touched);
    LoadSavedInfo(p, Corrected, v, touched, key, iv);
    ParseInfoLayout(touched, Corrected);
  }

  /** What a newly created chat's info reads back as, with either reader. */
  lemma CreatedChatReads(p: Primitives, x: Extractor, v: Vault, name: string, password: string, chatId: string, now: int, iv: Bytes)
    requires Sound(p) && |iv| == IvLength
    requires Storable(NewInfo(chatId, name, now))
    ensures var c := CreateHiddenChat(p, v, name, password, chatId, now, iv).1;
            var info := NewInfo(chatId, name, now);
            LoadHiddenChatInfo(p, x, c, chatId, DeriveKeyFromPassword(p, password, chatId))
            == Some(if x == AsWritten then info.(id := Quote(chatId), name := Quote(name)) else info)
  {
    var info := NewInfo(chatId, name, now);
    CreatedChat(p, v, name, password, chatId, now, iv);
    DecryptEncryptedText(p, DeriveKeyFromPassword(p, password, chatId), iv, Layout(InfoMembers(info)));
    ParseInfoLayout(info, x);
  }

  /** With the corrected reader, every message added to an unlocked chat whose info loads
      stores that info as active at the time of the message, with one more message. */
  lemma AddMessageCountsActivity(p: Primitives, v: Vault, info: ChatInfo, key: Bytes, message: string, isFromUser: bool,
                                 messageId: string, later: int, msgIv: Bytes, infoIv: Bytes)
    requires Sound(p) && |key| == KeyLength && |infoIv| == IvLength
    requires GetTemporaryChatKey(p, v, info.id) == Some(key)
    requires LoadHiddenChatInfo(p, Corrected, v, info.id, key) == Some(info)
    requires Storable(info) && info.messageCount < Int32Max && Int64Min <= later <= Int64Max
    ensures var r := AddMessageToHiddenChat(p, Corrected, v, info.id, message, isFromUser, messageId, later, msgIv, infoIv);
            && r.0
            && LoadHiddenChatInfo(p, Corrected, r.1, info.id, key)
               == Some(info.(lastActivity := later, messageCount := info.messageCount + 1))
  {
    var m := HiddenMessage(messageId, info.id, EncryptMessage(p, message, key, msgIv), isFromUser, later, false);
    var s := SaveHiddenMessage(v, m);
    assert LoadHiddenChatInfo(p, Corrected, s, info.id, key) == Some(info);
    UpdateActivityPersists(p, s, info, key, later, infoIv);
    assert Touched(info, later) == info.(lastActivity := later, messageCount := info.messageCount + 1);
    assert AddMessageToHiddenChat(p, Corrected, v, info.id, message, isFromUser, messageId, later, msgIv, infoIv)
           == (true, UpdateHiddenChatActivity(p, Corrected, s, info.id, key, later, infoIv));
  }

  /** The password a chat was created with unlocks it, with either reader. */
  lemma UnlockAfterCreate(p: Primitives, x: Extractor, v: Vault, name: string, password: string, chatId: string, now: int,
                          iv: Bytes, later: int, infoIv: Bytes)
    requires Sound(p) && |iv| == IvLength
    requires Storable(NewInfo(chatId, name, now))
    ensures var c := CreateHiddenChat(p, v, name, password, chatId, now, iv).1;
            UnlockHiddenChat(p, x, c, chatId, password, later, infoIv).0
  {
    CreatedChatReads(p, x, v, name, password, chatId, now, iv);
  }

  /** The file of a message stored encrypted reads back, with the corrected reader, as the
      message with its text. */
  lemma StoredMessageReads(p: Primitives, stored: HiddenMessage, message: string, key: Bytes, iv: Bytes)
    requires Sound(p) && |key| == KeyLength && |iv| == IvLength
    requires StorableMessage(stored) && stored.content == EncryptMessage(p, message, key, iv)
    ensures ParsedMessages(p, Corrected, [File(stored.id + ".crypta", Layout(MessageMembers(stored)))], key)
            == [stored.(content := message)]
  {
    var f := File(stored.id + ".crypta", Layout(MessageMembers(stored)));
    assert EndsWith(f.name, ".crypta") by {
      assert f.name[|f.name| - 7..] == ".crypta";
    }
    ParseMessageLayout(p, stored, key, Corrected);
    DecryptEncryptedText(p, key, iv, message);
  }

  /** A message added to an unlocked chat is listed, with its text decrypted, when the chat's
      messages are read with the corrected reader. */
  lemma AddedMessageIsListed(p: Primitives, v: Vault, chatId: string, key: Bytes, message: string, isFromUser: bool,
                             messageId: string, later: int, msgIv: Bytes, infoIv: Bytes)
    requires Sound(p) && |key| == KeyLength && |msgIv| == IvLength
    requires GetTemporaryChatKey(p, v, chatId) == Some(key)
    requires StorableMessage(HiddenMessage(messageId, chatId, EncryptMessage(p, message, key, msgIv), isFromUser, later, false))
    ensures var r := AddMessageToHiddenChat(p, Corrected, v, chatId, message, isFromUser, messageId, later, msgIv, infoIv);
            HiddenMessage(messageId, chatId, message, isFromUser, later, false)
              in multiset(GetHiddenChatMessages(p, Corrected, r.1, chatId))
  {
    var stored := HiddenMessage(messageId, chatId, EncryptMessage(p, message, key, msgIv), isFromUser, later, false);
    var s := SaveHiddenMessage(v, stored);
    var r := UpdateHiddenChatActivity(p, Corrected, s, chatId, key, later, infoIv);
    assert AddMessageToHiddenChat(p, Corrected, v, chatId, message, isFromUser, messageId, later, msgIv, infoIv) == (true, r);
    var before := if chatId in v.messageFiles then v.messageFiles[chatId] else [];
    var f := File(messageId + ".crypta", Layout(MessageMembers(stored)));
    assert r.messageFiles[chatId] == before + [f];
    assert GetTemporaryChatKey(p, r, chatId) == Some(key);
    StoredMessageReads(p, stored, message, key, msgIv);
    ParsedMessagesAppend(p, Corrected, before, f, key);
  }
}
