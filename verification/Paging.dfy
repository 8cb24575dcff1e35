/** Reading a group's members page by page from a server that may answer anything. */
module Paging {
  import opened Common
  import opened Text

  const PAGE_SIZE: nat := 100
  const MAX_MEMBERS: nat := 100_000

  datatype Member = Member(id: string, username: string, enabled: bool)

  /** What the server sends back for the members from an offset on. */
  datatype Reply = Lost | Status(code: nat) | Garbled | Listed(page: seq<Member>)

  /** The server's reply to the `n`th request, which asks from `first` on. */
  type Server = (nat, nat) -> Reply

  predicate Valid(m: Member) {
    m.id != "" && Trim(m.username) != ""
  }

  predicate Fine(members: seq<Member>) {
    && (forall i :: 0 <= i < |members| ==> Valid(members[i]))
    && forall i, j :: 0 <= j < i < |members| ==> members[j].id != members[i].id
  }

  /** Read on from what was read so far, one request at a time, until an empty page. */
  function Paged(serve: Server, n: nat, members: seq<Member>): Result<seq<Member>>
    decreases MAX_MEMBERS - |members|
  {
    match serve(n, |members|)
    case Lost => Err(Transport)
    case Status(code) => Err(HttpStatus(code))
    case Garbled => Err(Protocol("invalid group member response"))
    case Listed(page) =>
      if |page| > PAGE_SIZE || |members| + |page| > MAX_MEMBERS then
        Err(Protocol("group member limit exceeded"))
      else if page == [] then Ok(members)
      else if !Fine(members + page) then Err(Protocol("invalid or repeated group member"))
      else Paged(serve, n + 1, members + page)
  }

  /** The pages read on the way. */
  function PagesRead(serve: Server, n: nat, members: seq<Member>): seq<seq<Member>>
    decreases MAX_MEMBERS - |members|
  {
    match serve(n, |members|)
    case Listed(page) =>
      if |page| > PAGE_SIZE || |members| + |page| > MAX_MEMBERS || page == []
         || !Fine(members + page) then []
      else [page] + PagesRead(serve, n + 1, members + page)
    case _ => []
  }

  function Flat(pages: seq<seq<Member>>): seq<Member> {
    if pages == [] then [] else pages[0] + Flat(pages[1..])
  }

  method ReadMembers(serve: Server) returns (r: Result<seq<Member>>, requests: nat)
    ensures r == Paged(serve, 0, [])
    ensures requests == |PagesRead(serve, 0, [])| + 1
  {
    var members: seq<Member> := [];
    var seen: set<string> := {};
    requests := 0;
    while true
      invariant Fine(members) && |members| <= MAX_MEMBERS
      invariant seen == set m <- members :: m.id
      invariant Paged(serve, 0, []) == Paged(serve, requests, members)
      invariant |PagesRead(serve, 0, [])| == requests + |PagesRead(serve, requests, members)|
      decreases MAX_MEMBERS - |members|
    {
      var reply := serve(requests, |members|);
      requests := requests + 1;
      if reply.Lost? {
        return Err(Transport), requests;
      }
      if reply.Status? {
        return Err(HttpStatus(reply.code)), requests;
      }
      if reply.Garbled? {
        return Err(Protocol("invalid group member response")), requests;
      }
      var page := reply.page;
      if |page| > PAGE_SIZE || |members| + |page| > MAX_MEMBERS {
        return Err(Protocol("group member limit exceeded")), requests;
      }
      if page == [] {
        return Ok(members), requests;
      }
      var fine: bool;
      fine, members, seen := AddPage(members, seen, page);
      if !fine {
        return Err(Protocol("invalid or repeated group member")), requests;
      }
    }
  }

  /** Add a page's members one by one, refusing the first that is unusable or already seen. */
  method AddPage(members: seq<Member>, seen: set<string>, page: seq<Member>)
      returns (fine: bool, more: seq<Member>, all: set<string>)
    requires Fine(members) && seen == set m <- members :: m.id
    ensures fine <==> Fine(members + page)
    ensures fine ==> more == members + page && all == set m <- more :: m.id
  {
    hide Fine;
    more, all := members, seen;
    for i := 0 to |page|
      invariant more == members + page[..i] && Fine(more) && all == set m <- more :: m.id
    {
      var member := page[i];
      FineMore(more, member);
      assert more + [member] == (members + page)[..|more| + 1];
      PrefixFine(members + page, |more| + 1);
      if member.id == "" || Trim(member.username) == "" || member.id in all {
        return false, more, all;
      }
      assert page[..i + 1] == page[..i] + [member];
      more := more + [member];
      all := all + {member.id};
    }
    assert page[..|page|] == page;
    fine := true;
  }

  lemma FineMore(members: seq<Member>, member: Member)
    requires Fine(members)
    ensures Fine(members + [member]) <==>
            Valid(member) && member.id !in set m <- members :: m.id
  {
    var more, ids := members + [member], set m <- members :: m.id;
    if Fine(more) {
      assert Valid(more[|members|]);
      forall m | m in members ensures m.id != member.id {
        var k :| 0 <= k < |members| && members[k] == m;
        assert more[k].id != more[|members|].id;
      }
    }
    if Valid(member) && member.id !in ids {
      forall k | 0 <= k < |members| ensures members[k].id != member.id {
        assert members[k] in members && members[k].id in ids;
      }
    }
  }

  /** Whatever the server answers, reading takes at most 100,001 page requests. */
  lemma {:induction false} RequestsBounded(serve: Server, n: nat, members: seq<Member>)
    requires |members| <= MAX_MEMBERS
    ensures |PagesRead(serve, n, members)| + 1 <= 100_001 - |members|
    decreases MAX_MEMBERS - |members|
  {
    hide Fine;
    if PagesRead(serve, n, members) != [] {
      RequestsBounded(serve, n + 1, members + serve(n, |members|).page);
    }
  }

  lemma FlatEmpty()
    ensures Flat([]) == []
  {
  }

  lemma FlatFirst(page: seq<Member>, rest: seq<seq<Member>>, k: nat)
    requires k <= |rest|
    ensures Flat(([page] + rest)[..k + 1]) == page + Flat(rest[..k])
  {
    assert ([page] + rest)[..k + 1][1..] == rest[..k];
  }

  /** Whatever the server answers, a success is the concatenation of its pages, read at their
      offsets up to an empty page, all members usable and no ID twice. */
  lemma {:induction false} SuccessIsPages(serve: Server, n: nat, members: seq<Member>)
    requires Fine(members) && Paged(serve, n, members).Ok?
    ensures var pages := PagesRead(serve, n, members);
            var all := Paged(serve, n, members).value;
            && all == members + Flat(pages) && Fine(all)
            && (forall k :: 0 <= k < |pages| ==>
                 pages[k] != []
                 && serve(n + k, |members| + |Flat(pages[..k])|) == Listed(pages[k]))
            && serve(n + |pages|, |all|) == Listed([])
    decreases MAX_MEMBERS - |members|
  {
    hide Fine, Flat;
    var reply := serve(n, |members|);
    FlatEmpty();
    if reply.page != [] {
      var page, rest := reply.page, PagesRead(serve, n + 1, members + reply.page);
      SuccessIsPages(serve, n + 1, members + page);
      var pages := [page] + rest;
      FlatFirst(page, rest, |rest|);
      assert pages[..|rest| + 1] == pages && rest[..|rest|] == rest;
      forall k | 0 <= k < |pages|
        ensures serve(n + k, |members| + |Flat(pages[..k])|) == Listed(pages[k])
      {
        if k > 0 {
          FlatFirst(page, rest, k - 1);
        }
      }
    }
  }

  /** The server keeps one list and answers from any offset with a prefix of the rest, at most a
      page long and empty only at the end. */
  ghost predicate Serves(serve: Server, list: seq<Member>) {
    forall n: nat, first: nat :: first <= |list| ==>
      && serve(n, first).Listed?
      && |serve(n, first).page| <= PAGE_SIZE
      && serve(n, first).page <= list[first..]
      && (first < |list| ==> serve(n, first).page != [])
  }

  /** Against such a server the loop returns exactly its list, if and only if the list is within
      the limit, usable and without repeated IDs. */
  lemma {:induction false} StableListRead(serve: Server, list: seq<Member>, n: nat, k: nat)
    requires Serves(serve, list) && k <= |list| && k <= MAX_MEMBERS && Fine(list[..k])
    ensures Paged(serve, n, list[..k]) == Ok(list) <==> |list| <= MAX_MEMBERS && Fine(list)
    ensures Paged(serve, n, list[..k]).Ok? ==> Paged(serve, n, list[..k]).value == list
    decreases |list| - k
  {
    var page := serve(n, k).page;
    var m := k + |page|;
    assert list[..k] + page == list[..m];
    if page == [] {
      assert list[..k] == list;
    } else if m <= MAX_MEMBERS {
      PrefixFine(list, m);
      if Fine(list[..m]) {
        StableListRead(serve, list, n + 1, m);
      }
    }
  }

  lemma PrefixFine(list: seq<Member>, m: nat)
    requires m <= |list|
    ensures Fine(list) ==> Fine(list[..m])
  {
  }

  /** A usable member has an id and a name that is not all white space. */
  lemma ValidMeans(m: Member)
    ensures Valid(m) <==>
            m.id != "" && exists i :: 0 <= i < |m.username| && !IsWhitespace(m.username[i])
  {
    hide IsWhitespace;
    TrimsToNothing(m.username);
  }
}
