/** The lemon3 metadata document: the IPFS DAG node a lemon3 cast points
    at, holding the title, description, MIME type, file name and size of the
    enclosed file and links to the file and to its artwork. */
module Lemon3Dag {
  import opened Wrappers
  import opened Json

  /** Lemon3Metadata. `Enclosed` and `Artwork` are one-entry maps
      `{"/": cid}` in the program, built that way by every producer and by
      `FromCid`; the model keeps the cid of the single entry. */
  datatype Metadata = Metadata(
    title: string,
    description: string,
    mimeType: string,
    filename: string,
    size: int,
    enclosed: string,
    artwork: string)

  /** The metadata as a document, with the keys of its JSON tags. A link is
      written in the DAG-JSON form `{"/": cid}`. */
  function ToDoc(m: Metadata): seq<Member> {
    [ Member("title", JString(m.title)),
      Member("description", JString(m.description)),
      Member("type", JString(m.mimeType)),
      Member("filename", JString(m.filename)),
      Member("size", JInt(m.size)),
      Member("enclosed", JObject([Member("/", JString(m.enclosed))])),
      Member("artwork", JObject([Member("/", JString(m.artwork))])) ]
  }

  /** `doc[k].(map[string]any)["/"].(string)`: a link field's cid. */
  function LinkField(doc: seq<Member>, k: string): (r: Option<string>)
    ensures r.Some? <==> exists ms :: Get(doc, k) == Some(JObject(ms)) && Get(ms, "/").Some? && Get(ms, "/").value.JString?
  {
    match Get(doc, k)
    case Some(JObject(ms)) => AsString(Get(ms, "/"))
    case _ => None
  }

  /** `doc[k].(string)` with the zero value when absent or not a string. */
  function StringField(doc: seq<Member>, k: string): (s: string)
    ensures Get(doc, k).Some? && Get(doc, k).value.JString? ==> s == Get(doc, k).value.s
    ensures !(Get(doc, k).Some? && Get(doc, k).value.JString?) ==> s == ""
  {
    AsString(Get(doc, k)).GetOr("")
  }

  /** The size field: first as an int64, and when that gives 0, as a
      float64 truncated toward zero. */
  function SizeField(v: Option<Json>): (n: int)
    ensures forall i :: v == Some(JInt(i)) ==> n == i
    ensures forall r :: v == Some(JFloat(r)) ==> n == Truncate(r)
    ensures v.None? ==> n == 0
  {
    var asInt := if v.Some? && v.value.JInt? then v.value.i else 0;
    if asInt != 0 then asInt
    else if v.Some? && v.value.JFloat? then Truncate(v.value.r)
    else 0
  }

  /** The validation and extraction of FromCid once the document is
      fetched. */
  function FromDoc(doc: seq<Member>): (r: Result<Metadata>)
    ensures r.Ok? <==> LinkField(doc, "enclosed").Some?
    ensures r.Ok? ==> r.value.enclosed == LinkField(doc, "enclosed").value
    ensures r.Ok? ==> r.value.artwork == LinkField(doc, "artwork").GetOr("")
    ensures r.Ok? ==> r.value.filename == if StringField(doc, "filename") != "" then StringField(doc, "filename")
                                          else r.value.enclosed
    ensures r.Ok? ==> r.value.title == StringField(doc, "title")
                      && r.value.description == StringField(doc, "description")
                      && r.value.mimeType == StringField(doc, "type")
                      && r.value.size == SizeField(Get(doc, "size"))
    ensures Get(doc, "enclosed").None? ==> r == Err("DAG does not contain 'enclosed' field")
    ensures Get(doc, "enclosed").Some? && !Get(doc, "enclosed").value.JObject? ==>
              r == Err("'enclosed' field is not the expected map structure")
    ensures Get(doc, "enclosed").Some? && Get(doc, "enclosed").value.JObject? && r.Err? ==>
              r == Err("DAG does not contain valid 'enclosed' CID in 'enclosed' field")
  {
    match Get(doc, "enclosed")
    case None => Err("DAG does not contain 'enclosed' field")
    case Some(field) =>
      if !field.JObject? then Err("'enclosed' field is not the expected map structure")
      else match AsString(Get(field.members, "/"))
        case None => Err("DAG does not contain valid 'enclosed' CID in 'enclosed' field")
        case Some(enclosed) =>
          var filename := StringField(doc, "filename");
          Ok(Metadata(
            StringField(doc, "title"),
            StringField(doc, "description"),
            StringField(doc, "type"),
            if filename == "" then enclosed else filename,
            SizeField(Get(doc, "size")),
            enclosed,
            LinkField(doc, "artwork").GetOr("")))
  }

  /** FromCid, given what DagGet returned for the cid. */
  function FromCid(fetched: Result<seq<Member>>): (r: Result<Metadata>)
    ensures fetched.Err? ==> r == Err("failed to fetch DAG: " + fetched.msg)
    ensures fetched.Ok? ==> r == FromDoc(fetched.value)
  {
    match fetched
    case Err(e) => Err("failed to fetch DAG: " + e)
    case Ok(doc) => FromDoc(doc)
  }

  /** A metadata record the reader can give back unchanged: its file name is
      set, or it falls back to the enclosed cid anyway. */
  predicate Readable(m: Metadata) {
    m.filename != "" || m.enclosed == ""
  }

  /** Reading the document of a metadata record gives the record back. */
  lemma ReadToDoc(m: Metadata)
    requires Readable(m)
    ensures FromDoc(ToDoc(m)) == Ok(m)
  {
    DocFields(m);
  }

  /** Where each key sits in the document of a metadata record. */
  lemma DocFields(m: Metadata)
    ensures Get(ToDoc(m), "title") == Some(JString(m.title))
    ensures Get(ToDoc(m), "description") == Some(JString(m.description))
    ensures Get(ToDoc(m), "type") == Some(JString(m.mimeType))
    ensures Get(ToDoc(m), "filename") == Some(JString(m.filename))
    ensures Get(ToDoc(m), "size") == Some(JInt(m.size))
    ensures Get(ToDoc(m), "enclosed") == Some(JObject([Member("/", JString(m.enclosed))]))
    ensures Get(ToDoc(m), "artwork") == Some(JObject([Member("/", JString(m.artwork))]))
  {
    var d := ToDoc(m);
    assert Get(d, "title") == Some(JString(m.title)) by {
      GetFirst(d, "title", 0);
    }
    assert Get(d, "description") == Some(JString(m.description)) by {
      assert d[0].key == "title";
      GetFirst(d, "description", 1);
    }
    assert Get(d, "type") == Some(JString(m.mimeType)) by {
      assert d[0].key == "title" && d[1].key == "description";
      GetFirst(d, "type", 2);
    }
    assert Get(d, "filename") == Some(JString(m.filename)) by {
      assert d[0].key == "title" && d[1].key == "description" && d[2].key == "type";
      GetFirst(d, "filename", 3);
    }
    assert Get(d, "size") == Some(JInt(m.size)) by {
      assert d[0].key == "title" && d[1].key == "description" && d[2].key == "type";
      assert d[3].key == "filename";
      GetFirst(d, "size", 4);
    }
    assert Get(d, "enclosed") == Some(JObject([Member("/", JString(m.enclosed))])) by {
      assert d[0].key == "title" && d[1].key == "description" && d[2].key == "type";
      assert d[3].key == "filename" && d[4].key == "size";
      GetFirst(d, "enclosed", 5);
    }
    assert Get(d, "artwork") == Some(JObject([Member("/", JString(m.artwork))])) by {
      assert d[0].key == "title" && d[1].key == "description" && d[2].key == "type";
      assert d[3].key == "filename" && d[4].key == "size" && d[5].key == "enclosed";
      GetFirst(d, "artwork", 6);
    }
  }

  /** The same holds after the document has been stored and fetched again,
      which turns the integer size into a float64. */
  lemma ReadStored(m: Metadata)
    requires Readable(m)
    ensures FromDoc(WireMembers(ToDoc(m))) == Ok(m)
  {
    var doc := ToDoc(m);
    var w := WireMembers(doc);
    DocFields(m);
    GetWire(doc, "enclosed");
    GetWire(doc, "artwork");
    GetWire(doc, "title");
    GetWire(doc, "description");
    GetWire(doc, "type");
    GetWire(doc, "filename");
    GetWire(doc, "size");
    assert Get(w, "size") == Some(JFloat(m.size as real));
    assert Truncate(m.size as real) == m.size;
    assert WireMembers([Member("/", JString(m.enclosed))]) == [Member("/", JString(m.enclosed))];
    assert WireMembers([Member("/", JString(m.artwork))]) == [Member("/", JString(m.artwork))];
    assert Get(w, "enclosed") == Some(JObject([Member("/", JString(m.enclosed))]));
    assert Get(w, "artwork") == Some(JObject([Member("/", JString(m.artwork))]));
  }

  /** Without a usable file name the enclosed cid stands in for it. */
  lemma FilenameFallback(doc: seq<Member>)
    requires FromDoc(doc).Ok?
    requires StringField(doc, "filename") == ""
    ensures FromDoc(doc).value.filename == FromDoc(doc).value.enclosed
  {
  }
}
