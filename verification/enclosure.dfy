/** Enclosures: a file added to IPFS together with a small JSON document
    describing it (type, name, size, file cid, description). The document's
    own cid is what a cast links to, as `enclosure+ipfs://<cid>`. Documents
    fetched from IPFS are cached in the local store under
    `enclosure:<cid>`. */
module Enclosure {
  import opened Wrappers
  import opened Text
  import opened Json
  import opened Bytes
  import opened Farcaster
  import FcTools
  import LocalDb

  /** Go's int64. */
  type Int64 = x: int | -0x8000_0000_0000_0000 <= x <= 0x7fff_ffff_ffff_ffff

  datatype Enclosure = Enclosure(
    fileType: string,
    fileName: string,
    size: Int64,
    fileCid: string,
    description: string,
    enclosureCid: string)

  /** The zero value the JSON decoder starts from. */
  const Zero: Enclosure := Enclosure("", "", 0, "", "", "")

  /** The scheme of a cast's link to an enclosure. */
  const EnclosureScheme: string := "enclosure+ipfs://"

  /** The prefix the IPFS node puts before the cids it returns. */
  const IpfsPathPrefix: string := "/ipfs/"

  /** The prefix of the local store's cache keys. */
  const CachePrefix: string := "enclosure:"

  /** The document `json.Marshal` writes: the members in the order of the
      struct's fields, and `enclosure_cid` only when it is not empty. */
  function ToJson(e: Enclosure): (ms: seq<Member>)
    ensures Get(ms, "file_name") == Some(JString(e.fileName))
    ensures Get(ms, "size") == Some(JInt(e.size))
    ensures "enclosure_cid" in Keys(ms) <==> e.enclosureCid != ""
  {
    var ms := [Member("mime_type", JString(e.fileType)),
               Member("file_name", JString(e.fileName)),
               Member("size", JInt(e.size)),
               Member("file_cid", JString(e.fileCid)),
               Member("description", JString(e.description))]
              + (if e.enclosureCid == "" then [] else [Member("enclosure_cid", JString(e.enclosureCid))]);
    GetFirst(ms, "file_name", 1);
    GetFirst(ms, "size", 2);
    assert e.enclosureCid != "" ==> Keys(ms)[5] == "enclosure_cid";
    assert forall i :: 0 <= i < 5 ==> Keys(ms)[i] != "enclosure_cid";
    ms
  }

  /** The name `encoding/json` gives a value's kind in its errors. */
  function Kind(j: Json): string {
    match j
    case JNull => "null"
    case JBool(_) => "bool"
    case JInt(_) => "number"
    case JFloat(_) => "number"
    case JString(_) => "string"
    case JArray(_) => "array"
    case JObject(_) => "object"
  }

  /** The struct field a document key is decoded into. */
  predicate IsStringKey(k: string) {
    k == "mime_type" || k == "file_name" || k == "file_cid" || k == "description" || k == "enclosure_cid"
  }

  /** The decoding of a member into its field is well typed: strings for
      the string fields, a whole number in the int64 range for `size`, and
      null for either (null leaves the field alone). Other keys are
      ignored. */
  predicate WellTyped(m: Member) {
    (IsStringKey(m.key) ==> m.value.JNull? || m.value.JString?)
    && (m.key == "size" ==> m.value.JNull? || IsInt64(m.value))
  }

  /** A number `encoding/json` can store in an int64. */
  predicate IsInt64(v: Json) {
    (v.JInt? && -0x8000_0000_0000_0000 <= v.i <= 0x7fff_ffff_ffff_ffff)
    || (v.JFloat? && v.r == v.r.Floor as real
        && -0x8000_0000_0000_0000 <= v.r.Floor <= 0x7fff_ffff_ffff_ffff)
  }

  function TypeError(m: Member, goType: string): string {
    "json: cannot unmarshal " + Kind(m.value) + " into Go struct field Enclosure." + m.key + " of type " + goType
  }

  /** One member stored into its field: the updated struct and the type
      error, if any, which leaves the field as it was. */
  function Assign(acc: Enclosure, m: Member): (r: (Enclosure, Option<string>))
    ensures r.1.None? <==> WellTyped(m)
    ensures r.1.Some? ==> r == (acc, Some(TypeError(m, if IsStringKey(m.key) then "string" else "int64")))
    ensures m.value.JNull? || (!IsStringKey(m.key) && m.key != "size") ==> r == (acc, None)
    ensures r.1.None? && m.key == "size" && !m.value.JNull? ==>
              r.0 == acc.(size := if m.value.JInt? then m.value.i else m.value.r.Floor)
    ensures r.1.None? && m.key == "file_name" && m.value.JString? ==> r.0 == acc.(fileName := m.value.s)
    ensures r.1.None? && m.key == "file_cid" && m.value.JString? ==> r.0 == acc.(fileCid := m.value.s)
  {
    if m.value.JNull? then (acc, None)
    else if IsStringKey(m.key) then
      if !m.value.JString? then (acc, Some(TypeError(m, "string")))
      else
        var s := m.value.s;
        if m.key == "mime_type" then (acc.(fileType := s), None)
        else if m.key == "file_name" then (acc.(fileName := s), None)
        else if m.key == "file_cid" then (acc.(fileCid := s), None)
        else if m.key == "description" then (acc.(description := s), None)
        else (acc.(enclosureCid := s), None)
    else if m.key == "size" then
      if !IsInt64(m.value) then (acc, Some(TypeError(m, "int64")))
      else if m.value.JInt? then (acc.(size := m.value.i), None)
      else (acc.(size := m.value.r.Floor), None)
    else (acc, None)
  }

  /** The members decoded in document order; the first type error is the
      one reported, after the whole document has been read. */
  function DecodeMembers(ms: seq<Member>, acc: Enclosure, err: Option<string>): (r: Result<Enclosure>)
    ensures r.Ok? <==> err.None? && forall i :: 0 <= i < |ms| ==> WellTyped(ms[i])
    ensures err.Some? ==> r == Err(err.value)
  {
    if |ms| == 0 then
      if err.Some? then Err(err.value) else Ok(acc)
    else
      var (acc', e) := Assign(acc, ms[0]);
      var r := DecodeMembers(ms[1..], acc', if err.Some? then err else e);
      assert forall i :: 1 <= i < |ms| ==> ms[i] == ms[1..][i - 1];
      r
  }

  /** FromJson without the text parse: `json.Unmarshal` of a document into
      an Enclosure. A `null` document leaves the zero value; any document
      that is not an object is an error. */
  function FromJson(j: Json): (r: Result<Enclosure>)
    ensures j.JNull? ==> r == Ok(Zero)
    ensures !j.JNull? && !j.JObject? ==> r.Err?
    ensures j.JObject? ==> (r.Ok? <==> forall i :: 0 <= i < |j.members| ==> WellTyped(j.members[i]))
  {
    match j
    case JNull => Ok(Zero)
    case JObject(ms) => DecodeMembers(ms, Zero, None)
    case _ => Err("json: cannot unmarshal " + Kind(j) + " into Go value of type enclosure.Enclosure")
  }

  /** An enclosure written to JSON and read back is the same enclosure. */
  lemma JsonRoundTrip(e: Enclosure)
    ensures FromJson(Wire(JObject(ToJson(e)))) == Ok(e)
  {
    WireOfToJson(e);
    DecodeWireForm(e);
  }

  /** The document as it comes back from the text, the size now a float. */
  function WireForm(e: Enclosure): seq<Member> {
    [Member("mime_type", JString(e.fileType)),
     Member("file_name", JString(e.fileName)),
     Member("size", JFloat(e.size as real)),
     Member("file_cid", JString(e.fileCid)),
     Member("description", JString(e.description))]
    + (if e.enclosureCid == "" then [] else [Member("enclosure_cid", JString(e.enclosureCid))])
  }

  lemma WireOfToJson(e: Enclosure)
    ensures WireMembers(ToJson(e)) == WireForm(e)
  {
    var w := WireMembers(ToJson(e));
    assert |w| == |WireForm(e)|;
    forall i | 0 <= i < |w|
      ensures w[i] == WireForm(e)[i]
    {
    }
  }

  lemma DecodeWireForm(e: Enclosure)
    ensures DecodeMembers(WireForm(e), Zero, None) == Ok(e)
  {
    var w := WireForm(e);
    var a1 := Zero.(fileType := e.fileType);
    var a2 := a1.(fileName := e.fileName);
    var a3 := a2.(size := e.size);
    var a4 := a3.(fileCid := e.fileCid);
    var a5 := a4.(description := e.description);
    WireAssigns(e);
    DecodeStep(w, 0, Zero, a1);
    DecodeStep(w, 1, a1, a2);
    DecodeStep(w, 2, a2, a3);
    DecodeStep(w, 3, a3, a4);
    DecodeStep(w, 4, a4, a5);
    assert w[0..] == w;
    if e.enclosureCid == "" {
      assert w[5..] == [];
      assert a5 == e;
    } else {
      DecodeStep(w, 5, a5, e);
      assert w[6..] == [];
    }
  }

  /** Each member of the stored form goes into its own field. */
  lemma WireAssigns(e: Enclosure)
    ensures var w := WireForm(e);
            var a1 := Zero.(fileType := e.fileType);
            var a2 := a1.(fileName := e.fileName);
            var a3 := a2.(size := e.size);
            var a4 := a3.(fileCid := e.fileCid);
            var a5 := a4.(description := e.description);
            && Assign(Zero, w[0]) == (a1, None)
            && Assign(a1, w[1]) == (a2, None)
            && Assign(a2, w[2]) == (a3, None)
            && Assign(a3, w[3]) == (a4, None)
            && Assign(a4, w[4]) == (a5, None)
            && (e.enclosureCid != "" ==> |w| == 6 && Assign(a5, w[5]) == (e, None))
  {
    var w := WireForm(e);
    assert w[0] == Member("mime_type", JString(e.fileType));
    assert w[1] == Member("file_name", JString(e.fileName));
    assert w[2] == Member("size", JFloat(e.size as real));
    assert w[3] == Member("file_cid", JString(e.fileCid));
    assert w[4] == Member("description", JString(e.description));
  }

  /** One well-typed member decoded, the rest still to come. */
  lemma DecodeStep(w: seq<Member>, i: nat, a: Enclosure, a': Enclosure)
    requires i < |w| && Assign(a, w[i]) == (a', None)
    ensures DecodeMembers(w[i..], a, None) == DecodeMembers(w[i + 1..], a', None)
  {
    assert w[i..][1..] == w[i + 1..];
  }

  /** The text codec `encoding/json` provides: `decode` parses a document,
      numbers coming back as float64. */
  datatype JsonCodec = JsonCodec(encode: Json -> string, decode: string -> Result<Json>)

  /** The codec reads one document back as the decoder of
      `encoding/json` sees what was written: numbers come back as floats. */
  predicate ReadsBack(codec: JsonCodec, j: Json) {
    codec.decode(codec.encode(j)) == Ok(Wire(j))
  }

  /** `json.Unmarshal` of text into an enclosure: the parser's error, or
      the first type error, unwrapped. */
  function Unmarshal(text: string, codec: JsonCodec): (r: Result<Enclosure>)
    ensures r.Ok? <==> codec.decode(text).Ok? && FromJson(codec.decode(text).value).Ok?
    ensures r.Ok? ==> r.value == FromJson(codec.decode(text).value).value
    ensures codec.decode(text).Err? ==> r.msg == codec.decode(text).msg
    ensures codec.decode(text).Ok? && r.Err? ==> r.msg == FromJson(codec.decode(text).value).msg
  {
    match codec.decode(text)
    case Err(e) => Err(e)
    case Ok(j) => FromJson(j)
  }

  /** FromJson on text: the error of `Unmarshal` behind one prefix. */
  function ParseEnclosure(text: string, codec: JsonCodec): (r: Result<Enclosure>)
    ensures r.Ok? <==> codec.decode(text).Ok? && FromJson(codec.decode(text).value).Ok?
    ensures r.Ok? ==> r == Unmarshal(text, codec)
    ensures r.Err? ==> r.msg == "error parsing JSON: " + Unmarshal(text, codec).msg
    ensures r.Err? ==> HasPrefix(r.msg, "error parsing JSON: ")
  {
    PrefixOfConcat("error parsing JSON: ", "");
    match Unmarshal(text, codec)
    case Err(e) => PrefixOfConcat("error parsing JSON: ", e); Err("error parsing JSON: " + e)
    case Ok(enc) => Ok(enc)
  }

  /** The IPFS node as functions of their arguments. `addFile` and
      `addBytes` give the added content's path `/ipfs/<cid>`; `getFile`
      gives the content stored under a cid. */
  datatype IpfsNode = IpfsNode(
    addFile: string -> Result<string>,
    addBytes: string -> Result<string>,
    getFile: string -> Result<string>,
    pin: string -> Result<()>)

  /** NewEnclosure: stats the file, guesses its type when none is given,
      adds it, then adds the JSON document describing it; the enclosure's
      cid is the document's. `stat` gives a file's size, `guessMime` its
      detected type. */
  function NewEnclosure(ipfs: IpfsNode, stat: string -> Result<Int64>, guessMime: string -> Result<string>,
                        codec: JsonCodec, filePath: string, fileName: string, fileType: string,
                        description: string): (r: Result<Enclosure>)
    ensures !stat(filePath).Ok? ==> r == Err("error accessing file: " + stat(filePath).msg)
    ensures stat(filePath).Ok? && fileType == "" && !guessMime(filePath).Ok?
            ==> r == Err("error guessing file mime type: " + guessMime(filePath).msg)
    ensures stat(filePath).Ok? && (fileType != "" || guessMime(filePath).Ok?) && !ipfs.addFile(filePath).Ok?
            ==> r == Err("error uploading file to IPFS: " + ipfs.addFile(filePath).msg)
    ensures r.Ok? ==> r.value.fileName == fileName && r.value.description == description
                      && r.value.size == stat(filePath).value
                      && r.value.fileType == (if fileType != "" then fileType else guessMime(filePath).value)
                      && r.value.fileCid == TrimPrefix(ipfs.addFile(filePath).value, IpfsPathPrefix)
    ensures r.Ok? ==> var added := ipfs.addBytes(codec.encode(JObject(ToJson(r.value.(enclosureCid := "")))));
                      added.Ok? && r.value.enclosureCid == TrimPrefix(added.value, IpfsPathPrefix)
    ensures stat(filePath).Ok? && (fileType != "" || guessMime(filePath).Ok?) && ipfs.addFile(filePath).Ok? ==>
              var mimeType := if fileType != "" then fileType else guessMime(filePath).value;
              var draft := Enclosure(mimeType, fileName, stat(filePath).value,
                                     TrimPrefix(ipfs.addFile(filePath).value, IpfsPathPrefix), description, "");
              var added := ipfs.addBytes(codec.encode(JObject(ToJson(draft))));
              && (added.Err? ==> r == Err("error uploading JSON to IPFS: " + added.msg))
              && (added.Ok? ==> r.Ok?)
  {
    match stat(filePath)
    case Err(e) => Err("error accessing file: " + e)
    case Ok(size) =>
      var mime := if fileType != "" then Ok(fileType) else guessMime(filePath);
      match mime
      case Err(e) => Err("error guessing file mime type: " + e)
      case Ok(mimeType) =>
        match ipfs.addFile(filePath)
        case Err(e) => Err("error uploading file to IPFS: " + e)
        case Ok(path) =>
          var enc := Enclosure(mimeType, fileName, size, TrimPrefix(path, IpfsPathPrefix), description, "");
          match ipfs.addBytes(codec.encode(JObject(ToJson(enc))))
          case Err(e) => Err("error uploading JSON to IPFS: " + e)
          case Ok(docPath) => Ok(enc.(enclosureCid := TrimPrefix(docPath, IpfsPathPrefix)))
  }

  /** NewEnclosureFromCID: fetches and parses the document, sets its cid to
      the one asked for, and pins both the document and the file. */
  function NewEnclosureFromCid(ipfs: IpfsNode, codec: JsonCodec, cid: string): (r: Result<Enclosure>)
    ensures r.Ok? <==> ipfs.getFile(cid).Ok? && Unmarshal(ipfs.getFile(cid).value, codec).Ok?
                       && ipfs.pin(cid).Ok? && ipfs.pin(Unmarshal(ipfs.getFile(cid).value, codec).value.fileCid).Ok?
    ensures r.Ok? ==> r.value == Unmarshal(ipfs.getFile(cid).value, codec).value.(enclosureCid := cid)
    ensures ipfs.getFile(cid).Err? ==>
              r == Err("error fetching enclosure metadata from IPFS: " + ipfs.getFile(cid).msg)
    ensures ipfs.getFile(cid).Ok? && Unmarshal(ipfs.getFile(cid).value, codec).Err? ==>
              r == Err("error parsing enclosure JSON: " + Unmarshal(ipfs.getFile(cid).value, codec).msg)
    ensures ipfs.getFile(cid).Ok? && Unmarshal(ipfs.getFile(cid).value, codec).Ok? && ipfs.pin(cid).Err? ==>
              r == Err("error pinning enclosure CID: " + ipfs.pin(cid).msg)
    ensures ipfs.getFile(cid).Ok? && Unmarshal(ipfs.getFile(cid).value, codec).Ok? && ipfs.pin(cid).Ok?
            && ipfs.pin(Unmarshal(ipfs.getFile(cid).value, codec).value.fileCid).Err? ==>
              r == Err("error pinning file CID: " + ipfs.pin(Unmarshal(ipfs.getFile(cid).value, codec).value.fileCid).msg)
  {
    match ipfs.getFile(cid)
    case Err(e) => Err("error fetching enclosure metadata from IPFS: " + e)
    case Ok(text) =>
      match Unmarshal(text, codec)
      case Err(e) => Err("error parsing enclosure JSON: " + e)
      case Ok(parsed) =>
        var enc := parsed.(enclosureCid := cid);
        match ipfs.pin(cid)
        case Err(e) => Err("error pinning enclosure CID: " + e)
        case Ok(_) =>
          match ipfs.pin(enc.fileCid)
          case Err(e) => Err("error pinning file CID: " + e)
          case Ok(_) => Ok(enc)
  }

  /** A document that cannot be read gives the same parser message from
      NewEnclosureFromCID and from FromJson, each behind its own single
      prefix. */
  lemma ParseErrorsAgree(ipfs: IpfsNode, codec: JsonCodec, cid: string)
    requires ipfs.getFile(cid).Ok? && ParseEnclosure(ipfs.getFile(cid).value, codec).Err?
    ensures var e := ParseEnclosure(ipfs.getFile(cid).value, codec).msg;
            NewEnclosureFromCid(ipfs, codec, cid)
              == Err("error parsing enclosure JSON: " + e[|"error parsing JSON: "|..])
  {
    var text := ipfs.getFile(cid).value;
    var e := ParseEnclosure(text, codec).msg;
    assert e == "error parsing JSON: " + Unmarshal(text, codec).msg;
    assert e[|"error parsing JSON: "|..] == Unmarshal(text, codec).msg;
  }

  /** An enclosure just created reads back from its cid, as long as the node
      returns what was added under the cid it gave and the pins succeed. */
  lemma NewThenFetch(ipfs: IpfsNode, stat: string -> Result<Int64>, guessMime: string -> Result<string>,
                     codec: JsonCodec, filePath: string, fileName: string, fileType: string,
                     description: string)
    requires var r := NewEnclosure(ipfs, stat, guessMime, codec, filePath, fileName, fileType, description);
             r.Ok? ==> ReadsBack(codec, JObject(ToJson(r.value.(enclosureCid := ""))))
                       && ipfs.getFile(r.value.enclosureCid) == Ok(codec.encode(JObject(ToJson(r.value.(enclosureCid := "")))))
                       && ipfs.pin(r.value.enclosureCid).Ok? && ipfs.pin(r.value.fileCid).Ok?
    ensures var r := NewEnclosure(ipfs, stat, guessMime, codec, filePath, fileName, fileType, description);
            r.Ok? ==> NewEnclosureFromCid(ipfs, codec, r.value.enclosureCid) == r
  {
    var r := NewEnclosure(ipfs, stat, guessMime, codec, filePath, fileName, fileType, description);
    if r.Ok? {
      var e := r.value;
      var stored := e.(enclosureCid := "");
      JsonRoundTrip(stored);
      assert Unmarshal(ipfs.getFile(e.enclosureCid).value, codec) == Ok(stored);
    }
  }

  /** The key an enclosure is cached under. */
  function CacheKey(cid: string): (k: string)
    ensures HasPrefix(k, CachePrefix) && k[|CachePrefix|..] == cid
  {
    PrefixOfConcat(CachePrefix, cid);
    CachePrefix + cid
  }

  /** FromCID: the enclosure from the local store when it is cached there,
      or fetched from IPFS and then cached. The result comes with the store
      afterwards. A failed fetch caches nothing. */
  function FromCid(db: seq<LocalDb.Entry>, ipfs: IpfsNode, codec: JsonCodec, cid: string)
    : (r: (Result<Enclosure>, seq<LocalDb.Entry>))
    requires LocalDb.Sorted(db)
    ensures LocalDb.Sorted(r.1)
    ensures LocalDb.HasKey(db, CacheKey(cid)) ==> r.1 == db
    ensures LocalDb.HasKey(db, CacheKey(cid)) ==>
              var p := ParseEnclosure(LocalDb.Get(db, CacheKey(cid)).value, codec);
              (p.Ok? ==> r.0 == Ok(p.value)) && (p.Err? ==> r.0 == Err("error parsing JSON: " + p.msg))
    ensures !LocalDb.HasKey(db, CacheKey(cid)) ==>
              (r.0.Ok? <==> NewEnclosureFromCid(ipfs, codec, cid).Ok?)
              && (r.0.Err? ==> r == (Err(cid + " not found"), db))
              && (r.0.Ok? ==> r.0.value == NewEnclosureFromCid(ipfs, codec, cid).value
                              && LocalDb.Get(r.1, CacheKey(cid)) == Ok(codec.encode(JObject(ToJson(r.0.value))))
                              && r.1 == LocalDb.Set(db, CacheKey(cid), codec.encode(JObject(ToJson(r.0.value)))))
  {
    var key := CacheKey(cid);
    match LocalDb.Get(db, key)
    case Err(_) =>
      (match NewEnclosureFromCid(ipfs, codec, cid)
       case Err(_) => (Err(cid + " not found"), db)
       case Ok(enc) =>
         var text := codec.encode(JObject(ToJson(enc)));
         LocalDb.GetSetSame(db, key, text);
         (Ok(enc), LocalDb.Set(db, key, text)))
    case Ok(data) =>
      match ParseEnclosure(data, codec)
      case Err(e) => (Err("error parsing JSON: " + e), db)
      case Ok(enc) => (Ok(enc), db)
  }

  /** A cached enclosure is read from the store alone: the IPFS node is not
      consulted. */
  lemma CachedIgnoresIpfs(db: seq<LocalDb.Entry>, ipfs1: IpfsNode, ipfs2: IpfsNode, codec: JsonCodec, cid: string)
    requires LocalDb.Sorted(db) && LocalDb.HasKey(db, CacheKey(cid))
    ensures FromCid(db, ipfs1, codec, cid) == FromCid(db, ipfs2, codec, cid)
  {
  }

  /** A second lookup of an enclosure that was just fetched is a cache hit
      that gives the same enclosure and leaves the store as it is. */
  lemma SecondLookupHits(db: seq<LocalDb.Entry>, ipfs: IpfsNode, ipfs': IpfsNode, codec: JsonCodec, cid: string)
    requires LocalDb.Sorted(db)
    requires FromCid(db, ipfs, codec, cid).0.Ok?
    requires ReadsBack(codec, JObject(ToJson(FromCid(db, ipfs, codec, cid).0.value)))
    ensures var (r1, db1) := FromCid(db, ipfs, codec, cid);
            FromCid(db1, ipfs', codec, cid) == (r1, db1)
  {
    var (r1, db1) := FromCid(db, ipfs, codec, cid);
    var key := CacheKey(cid);
    var text := codec.encode(JObject(ToJson(r1.value)));
    if !LocalDb.HasKey(db, key) {
      assert LocalDb.Get(db1, key) == Ok(text);
      JsonRoundTrip(r1.value);
      assert ParseEnclosure(text, codec) == Ok(r1.value);
    }
  }

  /** What HumanReadableSize prints before formatting: the size in the
      largest binary unit (up to GB) that it reaches. */
  datatype ScaledSize = ScaledSize(amount: real, unit: string)

  /** The number of bytes in a unit. */
  function UnitBytes(unit: string): int {
    if unit == "KB" then 1024
    else if unit == "MB" then 1024 * 1024
    else if unit == "GB" then 1024 * 1024 * 1024
    else 1
  }

  /** HumanReadableSize, with the `%d` and `%.2f` formatting left to the
      printer. */
  function HumanReadableSize(size: Int64): (s: ScaledSize)
    ensures s.amount * UnitBytes(s.unit) as real == size as real
    ensures s.unit == "B" <==> size < 1024
    ensures s.unit != "B" ==> 1.0 <= s.amount
    ensures s.unit == "KB" || s.unit == "MB" ==> s.amount < 1024.0
    ensures s.unit in {"B", "KB", "MB", "GB"}
  {
    if size < 1024 then ScaledSize(size as real, "B")
    else if size < 1024 * 1024 then ScaledSize(size as real / 1024.0, "KB")
    else if size < 1024 * 1024 * 1024 then ScaledSize(size as real / (1024 * 1024) as real, "MB")
    else ScaledSize(size as real / (1024 * 1024 * 1024) as real, "GB")
  }

  /** The text of the cast that announces an enclosure. */
  function CastText(e: Enclosure): string {
    e.fileName + "\n" + e.description + "\n\n[with lemon3]"
  }

  /** Post: casts the enclosure's name and description with a link to its
      document. */
  function Post(e: Enclosure, hub: Option<Hub>, crypto: Crypto, fid: nat, privateKey: seq<byte>, now: int)
    : (r: Result<MessageData>)
    ensures hub.None? ==> r == Err("hub is nil")
    ensures hub.Some? ==> (r.Ok? <==> FcTools.SendCast(hub.value, crypto, fid, privateKey, CastText(e),
                                                        EnclosureScheme + e.enclosureCid, now).Ok?)
    ensures r.Ok? ==> Urls(CastAddBodyOf(r.value).embeds) == [EnclosureScheme + e.enclosureCid]
                      && CastAddBodyOf(r.value).text == CastText(e) && r.value.fid == fid
  {
    match hub
    case None => Err("hub is nil")
    case Some(h) =>
      match FcTools.SendCast(h, crypto, fid, privateKey, CastText(e), EnclosureScheme + e.enclosureCid, now)
      case Err(err) => Err("error uploading file to IPFS: " + err)
      case Ok(d) => Ok(d)
  }

  /** The link of a posted enclosure gives back its cid. */
  lemma PostedLinkNamesEnclosure(e: Enclosure, hub: Option<Hub>, crypto: Crypto, fid: nat,
                                 privateKey: seq<byte>, now: int)
    requires Post(e, hub, crypto, fid, privateKey, now).Ok?
    ensures var link := Urls(CastAddBodyOf(Post(e, hub, crypto, fid, privateKey, now).value).embeds)[0];
            HasPrefix(link, EnclosureScheme) && TrimPrefix(link, EnclosureScheme) == e.enclosureCid
  {
    PrefixOfConcat(EnclosureScheme, e.enclosureCid);
  }
}
