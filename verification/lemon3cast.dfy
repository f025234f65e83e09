/** Lemon3 casts: Farcaster casts carrying a `lemon3+ipfs://<cid>` embed
    whose cid names a lemon3 metadata document. */
module Lemon3Cast {
  import opened Wrappers
  import opened Text
  import opened Json
  import opened Farcaster
  import Lemon3Dag

  /** The link scheme the command-line tools write and read. */
  const Lemon3Scheme: string := "lemon3+ipfs://"

  predicate IsLemon3Url(u: string) {
    HasPrefix(u, Lemon3Scheme)
  }

  /** The cid of the first lemon3 link among `urls`, or "" when there is
      none. A bare `lemon3+ipfs://` link yields "" as well. */
  function FirstLemon3Cid(urls: seq<string>): (cid: string)
    ensures cid != "" ==> Lemon3Scheme + cid in urls
    ensures (forall i :: 0 <= i < |urls| ==> !IsLemon3Url(urls[i])) ==> cid == ""
    ensures forall i :: 0 <= i < |urls| && IsLemon3Url(urls[i])
                        && (forall j :: 0 <= j < i ==> !IsLemon3Url(urls[j]))
                        ==> urls[i] == Lemon3Scheme + cid
  {
    if |urls| == 0 then ""
    else if IsLemon3Url(urls[0]) then TrimPrefix(urls[0], Lemon3Scheme)
    else
      var cid := FirstLemon3Cid(urls[1..]);
      assert forall i :: 1 <= i < |urls| ==> urls[i] == urls[1..][i - 1];
      cid
  }

  /** The cids of all lemon3 links among `urls`, in order. */
  function Lemon3Cids(urls: seq<string>): (cids: seq<string>)
    ensures |cids| <= |urls|
    ensures forall c :: c in cids <==> exists i :: 0 <= i < |urls| && urls[i] == Lemon3Scheme + c
  {
    if |urls| == 0 then []
    else if IsLemon3Url(urls[0]) then
      PrefixOfConcat(Lemon3Scheme, TrimPrefix(urls[0], Lemon3Scheme));
      [TrimPrefix(urls[0], Lemon3Scheme)] + Lemon3Cids(urls[1..])
    else
      assert forall c :: urls[0] != Lemon3Scheme + c by {
        forall c ensures urls[0] != Lemon3Scheme + c {
          PrefixOfConcat(Lemon3Scheme, c);
        }
      }
      Lemon3Cids(urls[1..])
  }

  /** The first lemon3 cid is the head of the list of all of them. */
  lemma {:induction false} FirstIsHead(urls: seq<string>)
    ensures FirstLemon3Cid(urls) == if |Lemon3Cids(urls)| > 0 then Lemon3Cids(urls)[0] else ""
  {
    if |urls| > 0 && !IsLemon3Url(urls[0]) {
      FirstIsHead(urls[1..]);
    }
  }

  /** l3CidFromCast */
  function L3CidFromCast(body: CastAddBody): string {
    FirstLemon3Cid(Urls(body.embeds))
  }

  /** A lemon3 cast as the library reads it. `fname` is never filled in by
      FromPbMessage. */
  datatype L3Cast = L3Cast(
    fid: nat,
    fname: string,
    timestamp: int,
    hash: string,
    lemon3Cid: string,
    text: string,
    lemon3Data: Lemon3Dag.Metadata)

  /** FromPbMessage. `dagGet` stands for the IPFS node's answer to a DAG
      fetch. A cast without a lemon3 link gives no cast and no error. */
  function FromPbMessage(msg: Message, dagGet: string -> Result<seq<Member>>): (r: Result<Option<L3Cast>>)
    ensures L3CidFromCast(CastAddBodyOf(msg.data)) == "" ==> r == Ok(None)
    ensures r.Err? <==> L3CidFromCast(CastAddBodyOf(msg.data)) != ""
                        && Lemon3Dag.FromCid(dagGet(L3CidFromCast(CastAddBodyOf(msg.data)))).Err?
    ensures r.Ok? ==> (r.value.Some? <==> L3CidFromCast(CastAddBodyOf(msg.data)) != "")
    ensures r.Ok? && r.value.Some? ==>
              var c := r.value.value;
              c.timestamp == msg.data.timestamp + FarcasterEpoch
              && c.hash == HashString(msg.hash)
              && c.fid == msg.data.fid
              && c.fname == ""
              && c.text == CastAddBodyOf(msg.data).text
              && c.lemon3Cid == L3CidFromCast(CastAddBodyOf(msg.data))
              && Lemon3Scheme + c.lemon3Cid in Urls(CastAddBodyOf(msg.data).embeds)
              && Lemon3Dag.FromCid(dagGet(c.lemon3Cid)) == Ok(c.lemon3Data)
  {
    var body := CastAddBodyOf(msg.data);
    var cid := L3CidFromCast(body);
    if cid == "" then Ok(None)
    else match Lemon3Dag.FromCid(dagGet(cid))
      case Err(e) => Err(e)
      case Ok(meta) =>
        Ok(Some(L3Cast(msg.data.fid, "", msg.data.timestamp + FarcasterEpoch,
                       HashString(msg.hash), cid, body.text, meta)))
  }
}
