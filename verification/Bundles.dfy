/** Length-framed files: key bundles (src/transfer/keyBundle.ts) and signature bundles
    (src/certs/signing.ts). */
module Bundles {
  import opened Wrappers
  import opened Bytes

  datatype JsonValue =
    | Null
    | Bool(b: bool)
    | Number(n: real)
    | Text(s: string)
    | Arr(values: seq<JsonValue>)
    | Obj(fields: seq<(string, JsonValue)>)

  /** JSON.stringify and JSON.parse with UTF-8; None when parse throws. */
  datatype Json = Json(stringify: JsonValue -> Bytes, parse: Bytes -> Option<JsonValue>)

  /** m[name]: the last field of that name; nothing on a value that is no object. */
  function Field(m: JsonValue, name: string): Option<JsonValue> {
    if !m.Obj? then None else FieldOf(m.fields, name)
  }

  function FieldOf(fields: seq<(string, JsonValue)>, name: string): Option<JsonValue> {
    if fields == [] then None
    else if fields[|fields| - 1].0 == name then Some(fields[|fields| - 1].1)
    else FieldOf(fields[..|fields| - 1], name)
  }

  predicate IsTruthy(v: Option<JsonValue>) {
    v.Some? && v.value != Null && v.value != Bool(false) && v.value != Number(0.0) && v.value != Text("")
  }

  /** Which manifests a parser accepts. */
  datatype Schema = KeyBundle | SignedFile

  /** The check made on the parsed manifest. */
  predicate Meets(m: JsonValue, schema: Schema) {
    Field(m, "v") == Some(Number(1.0)) &&
    (schema.KeyBundle? ==> IsTruthy(Field(m, "kind")) && Field(m, "items").Some? && Field(m, "items").value.Arr?)
  }

  /** scrypt and AES-256-GCM. Deriving a key and encrypting may throw. */
  datatype Cipher = Cipher(derive: (string, Bytes, int, int, int) -> Option<Bytes>,
                           seal: (Bytes, Bytes, Bytes) -> (Bytes, Bytes),
                           open: (Bytes, Bytes, Bytes, Bytes) -> Option<Bytes>)

  /** Decryption undoes encryption; the text keeps its length and the tag has 16 bytes. */
  ghost predicate CipherInverse(c: Cipher) {
    forall key, iv, body :: Opens(c, key, iv, body)
  }

  ghost predicate Opens(c: Cipher, key: Bytes, iv: Bytes, body: Bytes) {
    var sealed := c.seal(key, iv, body);
    c.open(key, iv, sealed.0, sealed.1) == Some(body) && |sealed.0| == |body| && |sealed.1| == 16
  }

  datatype BundleError =
    | TooLong
    | NotABundle
    | UnsupportedVersion
    | UnknownVariant
    | BodyTooShort
    | LengthOutOfRange
    | BadJson
    | BadSchema
    | PasswordRequired
    | BadScryptParams
    | TooShort
    | KeyDerivationFailed
    | WrongPassword

  // ---- manifest and payload ----

  function EncodeBody(j: Json, manifest: JsonValue, payload: Bytes): Result<Bytes, BundleError> {
    var json := j.stringify(manifest);
    if |json| < TWO_32 then Ok(U32(|json|) + json + payload) else Err(TooLong)
  }

  function DecodeBody(j: Json, schema: Schema, body: Bytes): Result<(JsonValue, Bytes), BundleError> {
    if |body| < 4 then Err(BodyTooShort)
    else
      var len := Unsigned(body[..4]);
      if len > |body| - 4 then Err(LengthOutOfRange)
      else
        match j.parse(body[4..4 + len])
        case None => Err(BadJson)
        case Some(m) => if Meets(m, schema) then Ok((m, body[4 + len..])) else Err(BadSchema)
  }

  /** A body is decoded to what was encoded if and only if the manifest meets the schema:
      encoding does not check it. */
  lemma {:induction false} BodyRoundTrip(j: Json, schema: Schema, manifest: JsonValue, payload: Bytes)
    requires j.parse(j.stringify(manifest)) == Some(manifest) && EncodeBody(j, manifest, payload).Ok?
    ensures DecodeBody(j, schema, EncodeBody(j, manifest, payload).value) ==
            if Meets(manifest, schema) then Ok((manifest, payload)) else Err(BadSchema)
  {
    var json := j.stringify(manifest);
    var body := U32(|json|) + json + payload;
    U32Value(|json|);
    hide U32, Unsigned;
    assert body[..4] == U32(|json|) && body[4..4 + |json|] == json && body[4 + |json|..] == payload;
  }

  /** An accepted body is its length, the manifest text and the payload, with nothing between
      or left over. */
  lemma {:induction false} BodySplit(j: Json, schema: Schema, body: Bytes)
    requires DecodeBody(j, schema, body).Ok?
    ensures exists json: Bytes :: IsBody(j, schema, body, json, DecodeBody(j, schema, body).value)
  {
    var len := Unsigned(body[..4]);
    var json := body[4..4 + len];
    FourBytes(body[..4]);
    hide U32, Unsigned;
    assert body == U32(|json|) + json + body[4 + len..];
    assert IsBody(j, schema, body, json, DecodeBody(j, schema, body).value);
  }

  ghost predicate IsBody(j: Json, schema: Schema, body: Bytes, json: Bytes, parsed: (JsonValue, Bytes)) {
    && |json| < TWO_32 && body == U32(|json|) + json + parsed.1
    && j.parse(json) == Some(parsed.0) && Meets(parsed.0, schema)
  }

  // ---- key bundles ----

  /** "SECUTOR_KB" */
  const MAGIC: Bytes := [83, 69, 67, 85, 84, 79, 82, 95, 75, 66]
  const PLAIN: Byte := 0x50
  const ENCRYPTED: Byte := 0x45
  const VERSION: Byte := 1

  function BuildPlain(j: Json, manifest: JsonValue, payload: Bytes): Result<Bytes, BundleError> {
    match EncodeBody(j, manifest, payload)
    case Err(e) => Err(e)
    case Ok(body) => Ok(MAGIC + [PLAIN, VERSION] + body)
  }

  predicate InRange(v: Option<Byte>, low: int, high: int) {
    v.Some? ==> low <= v.value <= high
  }

  /** assertScryptParams; a missing byte passes every comparison. */
  predicate ParamsAccepted(logN: Option<Byte>, r: Option<Byte>, p: Option<Byte>) {
    InRange(logN, 10, 24) && InRange(r, 1, 32) && InRange(p, 1, 16)
  }

  datatype Params = Params(logN: Byte, r: Byte, p: Byte)

  function BuildEncrypted(j: Json, c: Cipher, manifest: JsonValue, payload: Bytes, password: string, params: Params,
                             salt: Bytes, iv: Bytes): Result<Bytes, BundleError>
    requires |salt| == 16 && |iv| == 12
  {
    if password == "" then Err(PasswordRequired)
    else if !ParamsAccepted(Some(params.logN), Some(params.r), Some(params.p)) then Err(BadScryptParams)
    else
      match c.derive(password, salt, params.logN, params.r, params.p)
      case None => Err(KeyDerivationFailed)
      case Some(key) =>
        match EncodeBody(j, manifest, payload)
        case Err(e) => Err(e)
        case Ok(body) =>
          var sealed := c.seal(key, iv, body);
          Ok(MAGIC + [ENCRYPTED, VERSION] + [params.logN, params.r, params.p, 0] + salt + iv + sealed.0 + sealed.1)
  }

  /** The magic, the variant and the version, written into a buffer. */
  method WriteHeader(header: array<Byte>, variant: Byte)
    requires header.Length >= 12
    modifies header
    ensures header[..12] == MAGIC + [variant, VERSION]
    ensures header[12..] == old(header[12..])
  {
    for i := 0 to 10
      invariant forall k :: 0 <= k < i ==> header[k] == MAGIC[k]
      invariant header[12..] == old(header[12..])
    {
      header[i] := MAGIC[i];
    }
    header[10] := variant;
    header[11] := VERSION;
  }

  method BuildPlainBundle(j: Json, manifest: JsonValue, payload: Bytes) returns (r: Result<Bytes, BundleError>)
    ensures r == BuildPlain(j, manifest, payload)
  {
    var body := EncodeBody(j, manifest, payload);
    if body.Err? { return Err(body.error); }
    var header := new Byte[12](i => 0);
    WriteHeader(header, PLAIN);
    assert header[..] == header[..12];
    r := Ok(header[..] + body.value);
  }

  method BuildEncryptedBundle(j: Json, c: Cipher, manifest: JsonValue, payload: Bytes, password: string, params: Params,
                              salt: Bytes, iv: Bytes) returns (r: Result<Bytes, BundleError>)
    requires |salt| == 16 && |iv| == 12
    ensures r == BuildEncrypted(j, c, manifest, payload, password, params, salt, iv)
  {
    if password == "" { return Err(PasswordRequired); }
    if !ParamsAccepted(Some(params.logN), Some(params.r), Some(params.p)) { return Err(BadScryptParams); }
    var key := c.derive(password, salt, params.logN, params.r, params.p);
    if key.None? { return Err(KeyDerivationFailed); }
    var body := EncodeBody(j, manifest, payload);
    if body.Err? { return Err(body.error); }
    var sealed := c.seal(key.value, iv, body.value);
    var prefix := new Byte[16](i => 0);
    WriteHeader(prefix, ENCRYPTED);
    prefix[12], prefix[13], prefix[14], prefix[15] := params.logN, params.r, params.p, 0;
    assert prefix[..] == MAGIC + [ENCRYPTED, VERSION] + [params.logN, params.r, params.p, 0];
    r := Ok(prefix[..] + salt + iv + sealed.0 + sealed.1);
  }

  datatype Parsed = Parsed(manifest: JsonValue, payload: Bytes, encrypted: bool)

  function ByteAt(b: Bytes, i: nat): Option<Byte> {
    if i < |b| then Some(b[i]) else None
  }

  predicate IsBundleFile(b: Bytes) {
    |b| >= 12 && b[..10] == MAGIC
  }

  function Finish(j: Json, body: Bytes, encrypted: bool): Result<Parsed, BundleError> {
    match DecodeBody(j, KeyBundle, body)
    case Err(e) => Err(e)
    case Ok((m, payload)) => Ok(Parsed(m, payload, encrypted))
  }

  function ParseEncrypted(j: Json, c: Cipher, b: Bytes, password: Option<string>): Result<Parsed, BundleError> {
    if password.None? || password.value == "" then Err(PasswordRequired)
    else if !ParamsAccepted(ByteAt(b, 12), ByteAt(b, 13), ByteAt(b, 14)) then Err(BadScryptParams)
    else if |b| - 16 <= 44 then Err(TooShort)
    else
      match c.derive(password.value, b[16..32], b[12], b[13], b[14])
      case None => Err(KeyDerivationFailed)
      case Some(key) =>
        match c.open(key, b[32..44], b[44..|b| - 16], b[|b| - 16..])
        case None => Err(WrongPassword)
        case Some(body) => Finish(j, body, true)
  }

  function ParseBundle(j: Json, c: Cipher, b: Bytes, password: Option<string>): Result<Parsed, BundleError> {
    if !IsBundleFile(b) then Err(NotABundle)
    else if b[11] != VERSION then Err(UnsupportedVersion)
    else if b[10] == PLAIN then Finish(j, b[12..], false)
    else if b[10] == ENCRYPTED then ParseEncrypted(j, c, b, password)
    else Err(UnknownVariant)
  }

  /** A plain bundle is parsed back to the manifest and payload it was built from, with any
      password or none, if and only if the manifest meets the schema. */
  lemma {:induction false} PlainRoundTrip(j: Json, c: Cipher, manifest: JsonValue, payload: Bytes, password: Option<string>)
    requires j.parse(j.stringify(manifest)) == Some(manifest) && BuildPlain(j, manifest, payload).Ok?
    ensures ParseBundle(j, c, BuildPlain(j, manifest, payload).value, password) ==
            if Meets(manifest, KeyBundle) then Ok(Parsed(manifest, payload, false)) else Err(BadSchema)
  {
    BodyRoundTrip(j, KeyBundle, manifest, payload);
    hide EncodeBody, DecodeBody;
    var body := EncodeBody(j, manifest, payload).value;
    var b := MAGIC + [PLAIN, VERSION] + body;
    assert b[..10] == MAGIC && b[12..] == body;
  }

  /** The same for an encrypted bundle and the password it was built with. */
  lemma {:induction false} EncryptedRoundTrip(j: Json, c: Cipher, manifest: JsonValue, payload: Bytes, password: string,
                                                       params: Params, salt: Bytes, iv: Bytes)
    requires j.parse(j.stringify(manifest)) == Some(manifest) && CipherInverse(c) && |salt| == 16 && |iv| == 12
    requires BuildEncrypted(j, c, manifest, payload, password, params, salt, iv).Ok?
    ensures ParseBundle(j, c, BuildEncrypted(j, c, manifest, payload, password, params, salt, iv).value, Some(password)) ==
            if Meets(manifest, KeyBundle) then Ok(Parsed(manifest, payload, true)) else Err(BadSchema)
  {
    BodyRoundTrip(j, KeyBundle, manifest, payload);
    var body := EncodeBody(j, manifest, payload).value;
    assert |body| >= 4;
    hide EncodeBody, DecodeBody;
    var key := c.derive(password, salt, params.logN, params.r, params.p).value;
    assert Opens(c, key, iv, body);
    var sealed := c.seal(key, iv, body);
    var head := MAGIC + [ENCRYPTED, VERSION] + [params.logN, params.r, params.p, 0];
    var b := head + salt + iv + sealed.0 + sealed.1;
    assert |head| == 16 && b[..10] == MAGIC;
    assert b[16..32] == salt && b[32..44] == iv;
    assert b[44..|b| - 16] == sealed.0 && b[|b| - 16..] == sealed.1;
  }

  /** Every accepted plain file is header, length, manifest and payload, back to back. */
  lemma {:induction false} PlainSplit(j: Json, c: Cipher, b: Bytes, password: Option<string>)
    requires ParseBundle(j, c, b, password).Ok? && !ParseBundle(j, c, b, password).value.encrypted
    ensures var r := ParseBundle(j, c, b, password).value;
            exists json: Bytes :: IsFramed(j, KeyBundle, b, MAGIC + [PLAIN, VERSION], json, (r.manifest, r.payload))
  {
    hide DecodeBody;
    var body := b[12..];
    BodySplit(j, KeyBundle, body);
    var json: Bytes :| IsBody(j, KeyBundle, body, json, DecodeBody(j, KeyBundle, body).value);
    assert b == b[..10] + [b[10], b[11]] + body;
    assert IsFramed(j, KeyBundle, b, MAGIC + [PLAIN, VERSION], json, DecodeBody(j, KeyBundle, body).value);
  }

  ghost predicate IsFramed(j: Json, schema: Schema, b: Bytes, header: Bytes, json: Bytes, parsed: (JsonValue, Bytes)) {
    |json| < TWO_32 && b == header + (U32(|json|) + json + parsed.1) && j.parse(json) == Some(parsed.0) && Meets(parsed.0, schema)
  }

  // ---- signature bundles ----

  /** "SECUTORSIG" and a version byte */
  const SIGNATURE_MAGIC: Bytes := [83, 69, 67, 85, 84, 79, 82, 83, 73, 71, 1]

  function BuildSignature(j: Json, data: Bytes, manifest: JsonValue): Result<Bytes, BundleError> {
    match EncodeBody(j, manifest, data)
    case Err(e) => Err(e)
    case Ok(body) => Ok(SIGNATURE_MAGIC + body)
  }

  function ParseSignature(j: Json, b: Bytes): Result<(JsonValue, Bytes), BundleError> {
    if |b| < 15 then Err(TooShort)
    else if b[..11] != SIGNATURE_MAGIC then Err(NotABundle)
    else
      var len := Unsigned(b[11..15]);
      if |b| < 15 + len then Err(LengthOutOfRange)
      else
        match j.parse(b[15..15 + len])
        case None => Err(BadJson)
        case Some(m) => if Meets(m, SignedFile) then Ok((m, b[15 + len..])) else Err(BadSchema)
  }

  /** Both parsers read a body the same way. */
  lemma {:induction false} SignatureBody(j: Json, b: Bytes)
    requires |b| >= 15 && b[..11] == SIGNATURE_MAGIC
    ensures ParseSignature(j, b) == DecodeBody(j, SignedFile, b[11..])
  {
    var body := b[11..];
    assert body[..4] == b[11..15];
    hide Unsigned;
    var len := Unsigned(body[..4]);
    if len <= |body| - 4 {
      assert body[4..4 + len] == b[15..15 + len] && body[4 + len..] == b[15 + len..];
    }
  }

  /** A signature bundle is parsed back to what it was built from, if and only if the
      manifest has version 1. */
  lemma {:induction false} SignatureRoundTrip(j: Json, data: Bytes, manifest: JsonValue)
    requires j.parse(j.stringify(manifest)) == Some(manifest) && BuildSignature(j, data, manifest).Ok?
    ensures ParseSignature(j, BuildSignature(j, data, manifest).value) ==
            if Meets(manifest, SignedFile) then Ok((manifest, data)) else Err(BadSchema)
  {
    BodyRoundTrip(j, SignedFile, manifest, data);
    var body := EncodeBody(j, manifest, data).value;
    assert |body| >= 4;
    hide EncodeBody, DecodeBody, ParseSignature;
    var b := SIGNATURE_MAGIC + body;
    assert b[..11] == SIGNATURE_MAGIC && b[11..] == body;
    SignatureBody(j, b);
  }

  /** Every accepted signature file is magic, length, manifest and data, back to back. */
  lemma {:induction false} SignatureSplit(j: Json, b: Bytes)
    requires ParseSignature(j, b).Ok?
    ensures exists json: Bytes :: IsFramed(j, SignedFile, b, SIGNATURE_MAGIC, json, ParseSignature(j, b).value)
  {
    SignatureBody(j, b);
    var body := b[11..];
    hide DecodeBody, ParseSignature;
    BodySplit(j, SignedFile, body);
    var json: Bytes :| IsBody(j, SignedFile, body, json, DecodeBody(j, SignedFile, body).value);
    assert b == b[..11] + body;
    assert IsFramed(j, SignedFile, b, SIGNATURE_MAGIC, json, DecodeBody(j, SignedFile, body).value);
  }

  // ---- the files byte by byte, and which are accepted ----

  /** "SECUTOR_KB", the variant 'P' or 'E', and version 1. */
  function HeaderBytes(variant: char): Bytes
    requires variant == 'P' || variant == 'E'
  {
    ['S' as int, 'E' as int, 'C' as int, 'U' as int, 'T' as int, 'O' as int, 'R' as int, '_' as int, 'K' as int, 'B' as int,
     variant as int, 1]
  }

  /** A plain file: header, four octets of length, manifest text, payload. */
  lemma {:induction false} PlainLayout(j: Json, manifest: JsonValue, payload: Bytes)
    ensures var json := j.stringify(manifest);
            BuildPlain(j, manifest, payload) ==
            if |json| < TWO_32 then Ok(HeaderBytes('P') + U32(|json|) + json + payload) else Err(TooLong)
  {
    var json := j.stringify(manifest);
    assert MAGIC + [PLAIN, VERSION] == HeaderBytes('P');
    if |json| < TWO_32 {
      hide U32;
      assert HeaderBytes('P') + (U32(|json|) + json + payload) == HeaderBytes('P') + U32(|json|) + json + payload;
    }
  }

  /** An encrypted file: header, the three scrypt parameters and a zero, 16 bytes of salt, 12 of
      nonce, the ciphertext of length, manifest and payload, 16 of tag. A missing password is
      noticed first, then parameters outside their bounds. */
  lemma {:induction false} EncryptedLayout(j: Json, c: Cipher, manifest: JsonValue, payload: Bytes, password: string, params: Params,
                                           salt: Bytes, iv: Bytes)
    requires |salt| == 16 && |iv| == 12
    ensures var json := j.stringify(manifest);
            var key := c.derive(password, salt, params.logN, params.r, params.p);
            BuildEncrypted(j, c, manifest, payload, password, params, salt, iv) ==
            if password == "" then Err(PasswordRequired)
            else if params.logN < 10 || 24 < params.logN || params.r < 1 || 32 < params.r || params.p < 1 || 16 < params.p
            then Err(BadScryptParams)
            else if key.None? then Err(KeyDerivationFailed)
            else if |json| >= TWO_32 then Err(TooLong)
            else
              var sealed := c.seal(key.value, iv, U32(|json|) + json + payload);
              Ok(HeaderBytes('E') + [params.logN, params.r, params.p, 0] + salt + iv + sealed.0 + sealed.1)
  {
    hide U32;
    assert MAGIC + [ENCRYPTED, VERSION] == HeaderBytes('E');
  }

  /** A value that counts as true in JavaScript. */
  predicate CountsAsTrue(v: JsonValue) {
    match v
    case Null => false
    case Bool(b) => b
    case Number(n) => n != 0.0
    case Text(s) => s != ""
    case Arr(_) => true
    case Obj(_) => true
  }

  /** An object whose last field of that name has the value. */
  ghost predicate HasField(m: JsonValue, name: string, v: JsonValue) {
    m.Obj? && exists k :: LastField(m.fields, name, v, k)
  }

  predicate LastField(fields: seq<(string, JsonValue)>, name: string, v: JsonValue, k: nat) {
    && k < |fields| && fields[k] == (name, v)
    && forall j :: k < j < |fields| ==> fields[j].0 != name
  }

  lemma {:induction false} FieldOfIs(fields: seq<(string, JsonValue)>, name: string, v: JsonValue)
    ensures FieldOf(fields, name) == Some(v) <==> exists k :: LastField(fields, name, v, k)
  {
    if fields != [] {
      var init, n := fields[..|fields| - 1], |fields| - 1;
      FieldOfIs(init, name, v);
      if fields[n].0 == name {
        if fields[n].1 == v { assert LastField(fields, name, v, n); }
      } else {
        if k :| LastField(init, name, v, k) { assert LastField(fields, name, v, k); }
        if k :| LastField(fields, name, v, k) { assert LastField(init, name, v, k); }
      }
    }
  }

  lemma {:induction false} FieldIs(m: JsonValue, name: string)
    ensures forall v :: HasField(m, name, v) <==> Field(m, name) == Some(v)
  {
    hide LastField;
    if m.Obj? {
      forall v ensures FieldOf(m.fields, name) == Some(v) <==> exists k :: LastField(m.fields, name, v, k) {
        FieldOfIs(m.fields, name, v);
      }
    }
  }

  /** What a manifest must have: version 1, and in a key bundle a kind and a list of items. */
  lemma {:induction false} MeetsIff(m: JsonValue, schema: Schema)
    ensures Meets(m, schema) <==>
            && HasField(m, "v", Number(1.0))
            && (schema == KeyBundle ==>
                  && (exists kind :: HasField(m, "kind", kind) && CountsAsTrue(kind))
                  && (exists items :: HasField(m, "items", items) && items.Arr?))
  {
    FieldIs(m, "v");
    FieldIs(m, "kind");
    FieldIs(m, "items");
    hide Field, HasField;
  }

  /** Reading a manifest body: which of the errors is given. */
  lemma {:induction false} BodyAnswer(j: Json, schema: Schema, body: Bytes)
    ensures DecodeBody(j, schema, body) ==
            if |body| < 4 then Err(BodyTooShort)
            else if |body| - 4 < Unsigned(body[..4]) then Err(LengthOutOfRange)
            else
              var m := j.parse(body[4..4 + Unsigned(body[..4])]);
              if m.None? then Err(BadJson)
              else if Meets(m.value, schema) then Ok((m.value, body[4 + Unsigned(body[..4])..])) else Err(BadSchema)
  {
    hide Meets, Unsigned;
  }

  /** Which files parseBundle reads, and what it answers otherwise; parameters are checked
      before the length, and the password before both. */
  lemma {:induction false} ParseAnswer(j: Json, c: Cipher, b: Bytes, password: Option<string>)
    ensures var r := ParseBundle(j, c, b, password);
            if |b| < 12 || b[..10] != HeaderBytes('P')[..10] then r == Err(NotABundle)
            else if b[11] != 1 then r == Err(UnsupportedVersion)
            else if b[10] == 'P' as int then r == Finish(j, b[12..], false)
            else if b[10] != 'E' as int then r == Err(UnknownVariant)
            else if password.None? || password.value == "" then r == Err(PasswordRequired)
            else if (|b| > 12 && (b[12] < 10 || 24 < b[12])) || (|b| > 13 && (b[13] < 1 || 32 < b[13])) || (|b| > 14 && (b[14] < 1 || 16 < b[14]))
            then r == Err(BadScryptParams)
            else if |b| <= 60 then r == Err(TooShort)
            else
              var key := c.derive(password.value, b[16..32], b[12], b[13], b[14]);
              if key.None? then r == Err(KeyDerivationFailed)
              else
                var body := c.open(key.value, b[32..44], b[44..|b| - 16], b[|b| - 16..]);
                if body.None? then r == Err(WrongPassword) else r == Finish(j, body.value, true)
  {
    assert MAGIC == HeaderBytes('P')[..10];
    hide Finish;
  }

  /** The same for signature files. */
  lemma {:induction false} SignatureAnswer(j: Json, b: Bytes)
    ensures var magic := HeaderBytes('P')[..7] + ['S' as int, 'I' as int, 'G' as int, 1];
            ParseSignature(j, b) ==
            if |b| < 15 then Err(TooShort)
            else if b[..11] != magic then Err(NotABundle)
            else DecodeBody(j, SignedFile, b[11..])
  {
    assert SIGNATURE_MAGIC == HeaderBytes('P')[..7] + ['S' as int, 'I' as int, 'G' as int, 1];
    hide DecodeBody, ParseSignature;
    if |b| >= 15 && b[..11] == SIGNATURE_MAGIC { SignatureBody(j, b); } else { SignatureRefused(j, b); }
  }

  lemma {:induction false} SignatureRefused(j: Json, b: Bytes)
    requires |b| < 15 || b[..11] != SIGNATURE_MAGIC
    ensures ParseSignature(j, b) == Err(if |b| < 15 then TooShort else NotABundle)
  {}
}
