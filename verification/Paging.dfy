/** Reading a listing page by page with continuation tokens. */
module Paging {
  import opened Tables

  /** One streamed item: an object, and the token that continues after its page; "" is none. */
  datatype Item = Item(object_: string, token: string)

  /** A server answers a page limit and a token with a page, or with nothing at all. */
  type Server = (nat, string) -> Option<seq<Item>>

  function Objects(page: seq<Item>): seq<string> {
    seq(|page|, i requires 0 <= i < |page| => page[i].object_)
  }

  /** The page given for a token is the piece of the listing at the token's position: empty only
      at the end, and continued by a token for the position after it, or by none at the end. */
  ghost predicate PageFits(all: seq<string>, pos: string -> nat, token: string, answer: Option<seq<Item>>)
    requires pos(token) <= |all|
  {
    && answer.Some?
    && var page, p := answer.value, pos(token);
       && p + |page| <= |all|
       && Objects(page) == all[p..p + |page|]
       && (p < |all| ==> page != [])
       && (page != [] ==>
             var next := page[|page| - 1].token;
             if next == "" then p + |page| == |all| else pos(next) == p + |page|)
  }

  ghost predicate Answers(server: Server, limit: nat, all: seq<string>, pos: string -> nat, token: string) {
    pos(token) <= |all| ==> PageFits(all, pos, token, server(limit, token))
  }

  /** Under this limit the server serves the listing; pos says where a token stands. */
  ghost predicate Serves(server: Server, limit: nat, all: seq<string>, pos: string -> nat) {
    && pos("") == 0
    && forall token :: Answers(server, limit, all, pos, token)
  }

  lemma PageExtends(all: seq<string>, pos: string -> nat, token: string, answer: Option<seq<Item>>)
    requires pos(token) <= |all| && PageFits(all, pos, token, answer)
    ensures all[..pos(token)] + Objects(answer.value) == all[..pos(token) + |answer.value|]
    ensures answer.value == [] ==> all[..pos(token)] == all
    ensures answer.value != [] && answer.value[|answer.value| - 1].token == "" ==>
              all[..pos(token) + |answer.value|] == all
  {
  }

  /** Stream all objects, or those of the first page only. */
  method GetResources(server: Server, limit: nat, fetchAll: bool, ghost all: seq<string>, ghost pos: string -> nat)
    returns (result: seq<string>)
    requires Serves(server, limit, all, pos)
    ensures fetchAll ==> result == all
    ensures !fetchAll ==> server(limit, "").Some? && result == Objects(server(limit, "").value) && result <= all
  {
    result := [];
    var token, more := "", true;
    while more
      invariant more ==> pos(token) <= |all| && result == all[..pos(token)]
      invariant more && !fetchAll ==> token == ""
      invariant !more && fetchAll ==> result == all
      invariant !more && !fetchAll ==>
                  server(limit, "").Some? && result == Objects(server(limit, "").value) && result <= all
      decreases if more then 1 + |all| - pos(token) else 0
    {
      var response := server(limit, token);
      assert Answers(server, limit, all, pos, token);
      PageExtends(all, pos, token, response);
      if response.None? {
        break;
      }
      var page := response.value;
      result := result + Objects(page);
      if !fetchAll || page == [] {
        more := false;
      } else {
        token := page[|page| - 1].token;
        if token == "" {
          more := false;
        }
      }
    }
  }

  /** The host groups of a subject are the unpaged listing. */
  method HostGroupsFor(server: Server, ghost all: seq<string>, ghost pos: string -> nat) returns (groups: seq<string>)
    requires Serves(server, 1000, all, pos)
    ensures groups == all
  {
    groups := GetResources(server, 1000, true, all, pos);
  }

  function StripRealm(id: string): string {
    if "redhat/" <= id then id[7..] else id
  }

  /** The realm "redhat/" is taken off an id that starts with it, once; any other id is kept. */
  lemma StripExactly(id: string, rest: string)
    ensures id == "redhat/" + rest ==> StripRealm(id) == rest
    ensures (forall r :: id != "redhat/" + r) ==> StripRealm(id) == id
  {
    if "redhat/" <= id {
      assert |"redhat/"| == 7 && id == id[..7] + id[7..];
      assert id == "redhat/" + id[7..];
    }
  }

  function StripAll(ids: seq<string>): seq<string> {
    seq(|ids|, i requires 0 <= i < |ids| => StripRealm(ids[i]))
  }

  /** The subjects with a permission: the same paging, with the realm taken off each id. */
  method SubjectsWithPermission(server: Server, ghost all: seq<string>, ghost pos: string -> nat)
    returns (result: seq<string>)
    requires Serves(server, 1000, all, pos)
    ensures |result| == |all| && forall i :: 0 <= i < |all| ==> result[i] == StripRealm(all[i])
  {
    result := [];
    var token := "";
    while true
      invariant pos(token) <= |all| && result == StripAll(all[..pos(token)])
      decreases |all| - pos(token)
    {
      var response := server(1000, token);
      assert Answers(server, 1000, all, pos, token);
      var page, last := response.value, Item("", "");
      ghost var start := pos(token);
      for i := 0 to |page|
        invariant result == StripAll(all[..start + i])
        invariant i > 0 ==> last == page[i - 1]
      {
        assert page[i].object_ == Objects(page)[i] == all[start + i];
        result := result + [StripRealm(page[i].object_)];
        last := page[i];
      }
      if page == [] || last.token == "" {
        assert all[..start + |page|] == all;
        break;
      }
      token := last.token;
    }
  }

  // ---------- servers that serve ----------

  /** A token that stands for a position. */
  function TokenAt(p: nat): string {
    seq(p, _ => 'x')
  }

  function ChunkEnd(all: seq<string>, limit: nat, p: nat): nat {
    if p + limit < |all| then p + limit else |all|
  }

  function ChunkPage(all: seq<string>, limit: nat, p: nat): (page: seq<Item>)
    requires p <= |all|
  {
    var end := ChunkEnd(all, limit, p);
    seq(end - p, i requires 0 <= i < end - p => Item(all[p + i], if end == |all| then "" else TokenAt(end)))
  }

  /** Cut the listing into pages of at most the limit. */
  function Chunks(all: seq<string>): Server {
    (limit: nat, token: string) => if |token| > |all| then None else Some(ChunkPage(all, limit, |token|))
  }

  /** Every listing has a server for every positive limit, so the limit never matters. */
  lemma ChunksServe(all: seq<string>, limit: nat)
    requires limit > 0
    ensures Serves(Chunks(all), limit, all, (token: string) => |token|)
  {
    var pos := (token: string) => |token|;
    forall token ensures Answers(Chunks(all), limit, all, pos, token) {
      if |token| <= |all| {
        ChunkFits(all, limit, token);
      }
    }
  }

  lemma ChunkFits(all: seq<string>, limit: nat, token: string)
    requires limit > 0 && |token| <= |all|
    ensures PageFits(all, (t: string) => |t|, token, Chunks(all)(limit, token))
  {
    var p := |token|;
    var end, page := ChunkEnd(all, limit, p), ChunkPage(all, limit, p);
    assert |page| == end - p && |TokenAt(end)| == end;
    assert Objects(page) == all[p..end];
  }

  /** A server that serves a listing under a limit serves no other: the listing is determined by
      its answers. */
  lemma ListingUnique(server: Server, limit: nat, a: seq<string>, b: seq<string>, posA: string -> nat,
      posB: string -> nat)
    requires Serves(server, limit, a, posA) && Serves(server, limit, b, posB)
    ensures a == b
  {
    ListingUniqueFrom(server, limit, a, b, posA, posB, "");
    assert a[0..] == a && b[0..] == b;
  }

  lemma {:induction false} ListingUniqueFrom(
    server: Server, limit: nat, a: seq<string>, b: seq<string>, posA: string -> nat, posB: string -> nat, token: string)
    requires Serves(server, limit, a, posA) && Serves(server, limit, b, posB)
    requires posA(token) <= |a| && posB(token) <= |b|
    ensures a[posA(token)..] == b[posB(token)..]
    decreases |a| - posA(token)
  {
    var answer := server(limit, token);
    assert Answers(server, limit, a, posA, token) && Answers(server, limit, b, posB, token);
    var page, p, q := answer.value, posA(token), posB(token);
    if page != [] && page[|page| - 1].token != "" {
      ListingUniqueFrom(server, limit, a, b, posA, posB, page[|page| - 1].token);
      assert a[p..] == Objects(page) + a[p + |page|..];
      assert b[q..] == Objects(page) + b[q + |page|..];
    } else if page != [] {
      assert a[p..] == Objects(page) && b[q..] == Objects(page);
    }
  }
}
