/**
 * The read-only handlers: the gallery listing of server/routes/pigs.js (search,
 * sort, pagination, live comment counts), the older sort-less listing of
 * server/server.js, the detail read, the `/api/stats` aggregate and the per-pig
 * comment listing. Each is a function of the table contents and the request.
 */
module Queries {
  import opened Wrappers
  import opened Schema
  import opened Replies
  import opened Ordering
  import Text
  import Numbers
  import Network

  /** What the listing and the detail read return of a pig: every column but `ip`. */
  datatype PigView = PigView(id: nat, name: string, image: string, location: string,
                             likes: nat, createdAt: int)

  function View(p: Pig): PigView {
    PigView(p.id, p.name, p.image, p.location, p.likes, p.createdAt)
  }

  /** A listed pig with its `comment_count` column. */
  datatype ListedPig = ListedPig(pig: PigView, commentCount: nat)

  /** The `page` and `limit` query parameters, as strings, `None` when absent. */
  datatype Paging = Paging(page: Option<string>, limit: Option<string>)

  datatype ListQuery = ListQuery(paging: Paging, search: Option<string>, sort: Option<string>)

  const DefaultLimit: int := 20

  /** `parseInt(req.query.page) || 0`. */
  function PageOf(p: Paging): (page: int)
    ensures p.page.None? ==> page == 0
    ensures p.page.Some? && Numbers.ParseInt(p.page.value).Some? ==> page == Numbers.ParseInt(p.page.value).value
    ensures p.page.Some? && Numbers.ParseInt(p.page.value).None? ==> page == 0
  {
    Numbers.IntOr(p.page, 0)
  }

  /** `parseInt(req.query.limit) || 20`. */
  function LimitOf(p: Paging): (limit: int)
    ensures limit != 0
  {
    Numbers.IntOr(p.limit, DefaultLimit)
  }

  function OffsetOf(p: Paging): int {
    PageOf(p) * LimitOf(p)
  }

  /** `req.query.search ? req.query.search.trim() : ''`. */
  function SearchTerm(search: Option<string>): (s: string)
    ensures Text.Trimmed(s)
  {
    if Network.Truthy(search) then Text.TrimTrimmed(search.value); Text.Trim(search.value) else ""
  }

  datatype SortKey = ByCreatedAt | ByLikes | ByCommentCount

  /** `(req.query.sort || '').trim()` picked from a closed set; anything else is `created_at`. */
  function SortOf(sort: Option<string>): (k: SortKey)
    ensures k == ByLikes <==> Text.Trim(sort.GetOr("")) == "likes"
    ensures k == ByCommentCount <==> Text.Trim(sort.GetOr("")) == "comments"
  {
    var p := Text.Trim(sort.GetOr(""));
    if p == "likes" then ByLikes else if p == "comments" then ByCommentCount else ByCreatedAt
  }

  function CreatedKey(row: ListedPig): int { row.pig.createdAt }
  function LikesKey(row: ListedPig): int { row.pig.likes }
  function CommentsKey(row: ListedPig): int { row.commentCount }

  /** The `ORDER BY` column. */
  function KeyOf(k: SortKey): ListedPig -> int {
    match k
    case ByCreatedAt => CreatedKey
    case ByLikes => LikesKey
    case ByCommentCount => CommentsKey
  }

  /**
   * `name LIKE '%search%'`: a substring test, case-insensitive on ASCII letters as
   * SQLite's `LIKE` is.
   */
  predicate NameMatches(name: string, search: string) {
    Text.Contains(Text.Lower(name), Text.Lower(search))
  }

  /** Folding the case of either side does not change whether a name matches. */
  lemma NameMatchesIgnoresCase(name: string, search: string)
    ensures NameMatches(Text.Lower(name), search) == NameMatches(name, search)
    ensures NameMatches(name, Text.Lower(search)) == NameMatches(name, search)
  {
    Text.LowerFolds(name);
    Text.LowerFolds(search);
  }

  function Matching(pigs: seq<Pig>, search: string): (r: seq<Pig>)
    ensures |r| <= |pigs|
  {
    if pigs == [] then []
    else (if NameMatches(pigs[0].name, search) then [pigs[0]] else []) + Matching(pigs[1..], search)
  }

  /** The filter keeps exactly the pigs whose name matches. */
  lemma {:induction false} MatchingMembers(pigs: seq<Pig>, search: string)
    ensures forall p :: p in Matching(pigs, search) <==> p in pigs && NameMatches(p.name, search)
  {
    if pigs != [] {
      MatchingMembers(pigs[1..], search);
      assert pigs == [pigs[0]] + pigs[1..];
    }
  }

  /** An empty search matches every pig. */
  lemma {:induction false} MatchingEmpty(pigs: seq<Pig>)
    ensures Matching(pigs, "") == pigs
  {
    if pigs != [] {
      Text.ContainsEmpty(Text.Lower(pigs[0].name));
      assert Text.Lower("") == "";
      MatchingEmpty(pigs[1..]);
    }
  }

  /** `SELECT COUNT(*) FROM comments WHERE pig_id = ?`. */
  function CommentCount(comments: seq<Comment>, pigId: int): (n: nat)
    ensures n <= |comments|
  {
    if comments == [] then 0
    else (if comments[0].pigId == pigId then 1 else 0) + CommentCount(comments[1..], pigId)
  }

  /** Each pig with its comment count, computed from the comment table at read time. */
  function Annotate(pigs: seq<Pig>, comments: seq<Comment>): (r: seq<ListedPig>)
    ensures |r| == |pigs|
    ensures forall i :: 0 <= i < |pigs| ==> r[i] == ListedPig(View(pigs[i]), CommentCount(comments, pigs[i].id))
  {
    seq(|pigs|, i requires 0 <= i < |pigs| => ListedPig(View(pigs[i]), CommentCount(comments, pigs[i].id)))
  }

  datatype PigPage = PigPage(total: nat, page: int, search: Option<string>, pigs: seq<ListedPig>)

  /**
   * `GET /api/pigs` of server/routes/pigs.js. The header: `total` counts the pigs
   * matching the trimmed search (all pigs when it is empty), the page is echoed, and
   * so is the search when it is non-empty.
   */
  function ListPigs(pigs: seq<Pig>, comments: seq<Comment>, q: ListQuery): (r: PigPage)
    ensures r.total == |Matching(pigs, SearchTerm(q.search))|
    ensures r.page == PageOf(q.paging)
    ensures r.search == (if SearchTerm(q.search) == "" then None else Some(SearchTerm(q.search)))
  {
    var page := PageOf(q.paging);
    var limit := LimitOf(q.paging);
    var search := SearchTerm(q.search);
    var key := KeyOf(SortOf(q.sort));
    if search != "" then
      var found := Matching(pigs, search);
      PigPage(|found|, page, Some(search), Window(SortDesc(Annotate(found, comments), key), limit, page * limit))
    else
      MatchingEmpty(pigs);
      PigPage(|pigs|, page, None, Window(SortDesc(Annotate(pigs, comments), key), limit, page * limit))
  }

  /** Every row of a window of a sorted list comes from the list. */
  lemma WindowOfSortedFrom<T>(s: seq<T>, key: T -> int, limit: int, offset: int, x: T)
    requires x in Window(SortDesc(s, key), limit, offset)
    ensures x in s
  {
    SortDescCorrect(s, key);
    var sorted := SortDesc(s, key);
    assert x in sorted[Start(offset, |sorted|)..];
    assert x in multiset(sorted);
  }

  /** A listed row is a matching pig, without its `ip`, with its live comment count. */
  lemma AnnotatedRowFrom(pigs: seq<Pig>, comments: seq<Comment>, search: string, key: ListedPig -> int,
                         limit: int, offset: int, row: ListedPig)
    requires row in Window(SortDesc(Annotate(Matching(pigs, search), comments), key), limit, offset)
    ensures exists p :: p in pigs && NameMatches(p.name, search) &&
                        row == ListedPig(View(p), CommentCount(comments, p.id))
  {
    var found := Matching(pigs, search);
    var rows := Annotate(found, comments);
    WindowOfSortedFrom(rows, key, limit, offset, row);
    var i :| 0 <= i < |rows| && rows[i] == row;
    MatchingMembers(pigs, search);
    assert found[i] in found;
  }

  /**
   * The listing's count, rows and order: `total` counts the pigs matching the
   * trimmed search (all pigs when it is empty); each row is a matching pig without
   * its `ip`, with the live count of its comments; rows are in non-increasing order
   * of the chosen key; at most `limit` rows when `limit` is positive.
   */
  lemma ListPigsSpec(pigs: seq<Pig>, comments: seq<Comment>, q: ListQuery)
    ensures var r := ListPigs(pigs, comments, q);
      && r.total == |Matching(pigs, SearchTerm(q.search))|
      && r.page == PageOf(q.paging)
      && r.search == (if SearchTerm(q.search) == "" then None else Some(SearchTerm(q.search)))
      && SortedDesc(r.pigs, KeyOf(SortOf(q.sort)))
      && (LimitOf(q.paging) > 0 ==> |r.pigs| <= LimitOf(q.paging))
      && forall row :: row in r.pigs ==>
           exists p :: p in pigs && NameMatches(p.name, SearchTerm(q.search)) &&
                       row == ListedPig(View(p), CommentCount(comments, p.id))
  {
    var search := SearchTerm(q.search);
    var key := KeyOf(SortOf(q.sort));
    var rows := Annotate(Matching(pigs, search), comments);
    var shown := ListPigs(pigs, comments, q).pigs;
    ListPigsRows(pigs, comments, q);
    SortDescCorrect(rows, key);
    WindowSorted(SortDesc(rows, key), key, LimitOf(q.paging), OffsetOf(q.paging));
    forall row | row in shown
      ensures exists p :: p in pigs && NameMatches(p.name, search) &&
                          row == ListedPig(View(p), CommentCount(comments, p.id))
    {
      AnnotatedRowFrom(pigs, comments, search, key, LimitOf(q.paging), OffsetOf(q.paging), row);
    }
  }

  /**
   * The rows are the window at `page * limit` of an ordering of all matching rows
   * that is non-increasing by the key: what `ORDER BY key DESC LIMIT ? OFFSET ?` returns.
   */
  lemma ListPigsRows(pigs: seq<Pig>, comments: seq<Comment>, q: ListQuery)
    ensures ListPigs(pigs, comments, q).pigs ==
            Window(SortDesc(Annotate(Matching(pigs, SearchTerm(q.search)), comments), KeyOf(SortOf(q.sort))),
                   LimitOf(q.paging), OffsetOf(q.paging))
  {
    if SearchTerm(q.search) == "" {
      MatchingEmpty(pigs);
    }
  }

  lemma ListPigsIsWindow(pigs: seq<Pig>, comments: seq<Comment>, q: ListQuery)
    ensures exists ordered: seq<ListedPig> ::
      && SortedDesc(ordered, KeyOf(SortOf(q.sort)))
      && multiset(ordered) == multiset(Annotate(Matching(pigs, SearchTerm(q.search)), comments))
      && ListPigs(pigs, comments, q).pigs == Window(ordered, LimitOf(q.paging), OffsetOf(q.paging))
  {
    ListPigsRows(pigs, comments, q);
    var rows := Annotate(Matching(pigs, SearchTerm(q.search)), comments);
    SortDescCorrect(rows, KeyOf(SortOf(q.sort)));
  }

  function ViewCreatedKey(v: PigView): int { v.createdAt }

  function Views(pigs: seq<Pig>): (r: seq<PigView>)
    ensures |r| == |pigs|
    ensures forall i :: 0 <= i < |pigs| ==> r[i] == View(pigs[i])
  {
    seq(|pigs|, i requires 0 <= i < |pigs| => View(pigs[i]))
  }

  datatype LegacyPage = LegacyPage(total: nat, page: int, search: Option<string>, pigs: seq<PigView>)

  /** `GET /api/pigs` of server/server.js: no `sort`, no `comment_count`, newest first. */
  function ListPigsLegacy(pigs: seq<Pig>, q: ListQuery): (r: LegacyPage)
    ensures r.total == |Matching(pigs, SearchTerm(q.search))|
    ensures r.page == PageOf(q.paging)
    ensures r.search == (if SearchTerm(q.search) == "" then None else Some(SearchTerm(q.search)))
  {
    var page := PageOf(q.paging);
    var limit := LimitOf(q.paging);
    var search := SearchTerm(q.search);
    if search != "" then
      var found := Matching(pigs, search);
      LegacyPage(|found|, page, Some(search), Window(SortDesc(Views(found), ViewCreatedKey), limit, page * limit))
    else
      MatchingEmpty(pigs);
      LegacyPage(|pigs|, page, None, Window(SortDesc(Views(pigs), ViewCreatedKey), limit, page * limit))
  }

  /** The older listing's rows: the window at `page * limit` of the matching pigs' views, newest first. */
  lemma LegacyRows(pigs: seq<Pig>, q: ListQuery)
    ensures ListPigsLegacy(pigs, q).pigs ==
            Window(SortDesc(Views(Matching(pigs, SearchTerm(q.search))), ViewCreatedKey),
                   LimitOf(q.paging), OffsetOf(q.paging))
  {
    if SearchTerm(q.search) == "" {
      MatchingEmpty(pigs);
    }
  }

  /** A row of the older listing is the view of a matching pig. */
  lemma ViewRowFrom(pigs: seq<Pig>, search: string, limit: int, offset: int, v: PigView)
    requires v in Window(SortDesc(Views(Matching(pigs, search)), ViewCreatedKey), limit, offset)
    ensures exists p :: p in pigs && NameMatches(p.name, search) && v == View(p)
  {
    var found := Matching(pigs, search);
    var rows := Views(found);
    WindowOfSortedFrom(rows, ViewCreatedKey, limit, offset, v);
    var i :| 0 <= i < |rows| && rows[i] == v;
    MatchingMembers(pigs, search);
    assert found[i] in found;
  }

  /** The older listing: filtered count, matching rows only, newest first, at most `limit` rows. */
  lemma ListPigsLegacySpec(pigs: seq<Pig>, q: ListQuery)
    ensures var r := ListPigsLegacy(pigs, q);
      && r.total == |Matching(pigs, SearchTerm(q.search))|
      && SortedDesc(r.pigs, ViewCreatedKey)
      && (LimitOf(q.paging) > 0 ==> |r.pigs| <= LimitOf(q.paging))
      && forall v :: v in r.pigs ==>
           exists p :: p in pigs && NameMatches(p.name, SearchTerm(q.search)) && v == View(p)
  {
    var search := SearchTerm(q.search);
    var rows := Views(Matching(pigs, search));
    var shown := ListPigsLegacy(pigs, q).pigs;
    LegacyRows(pigs, q);
    SortDescCorrect(rows, ViewCreatedKey);
    WindowSorted(SortDesc(rows, ViewCreatedKey), ViewCreatedKey, LimitOf(q.paging), OffsetOf(q.paging));
    forall v | v in shown
      ensures exists p :: p in pigs && NameMatches(p.name, search) && v == View(p)
    {
      ViewRowFrom(pigs, search, LimitOf(q.paging), OffsetOf(q.paging), v);
    }
  }

  /** `SELECT ... FROM pigs WHERE id = ?`: the first row with that id. */
  function FindPig(pigs: seq<Pig>, id: int): (r: Option<Pig>)
    ensures r.Some? ==> r.value in pigs && r.value.id == id
    ensures r.None? <==> !HasPig(pigs, id)
  {
    if pigs == [] then None
    else if pigs[0].id == id then Some(pigs[0])
    else
      var r := FindPig(pigs[1..], id);
      assert HasPig(pigs[1..], id) ==> HasPig(pigs, id);
      assert HasPig(pigs, id) ==> HasPig(pigs[1..], id);
      r
  }

  /** `GET /api/pigs/:id`: the pig without its `ip`, or 404; there is no 400 for a bad id. */
  function PigDetail(pigs: seq<Pig>, idParam: string): (r: Reply<PigView>)
    ensures r.Err? ==> r == Err(404, MsgNoPig)
    ensures r.Ok? <==> Numbers.ParseInt(idParam).Some? && HasPig(pigs, Numbers.ParseInt(idParam).value)
    ensures r.Ok? ==> exists p :: p in pigs && p.id == Numbers.ParseInt(idParam).value && r.body == View(p)
  {
    match Numbers.ParseInt(idParam)
    case None => Err(404, MsgNoPig)
    case Some(id) =>
      match FindPig(pigs, id)
      case None => Err(404, MsgNoPig)
      case Some(p) => Ok(View(p))
  }

  /** `/api/stats`: `COUNT(*)`, `SUM(likes)` (NULL on an empty table), `COUNT(DISTINCT location)`. */
  datatype Stats = Stats(total: nat, totalLikes: Option<nat>, countries: nat)

  function SumLikes(pigs: seq<Pig>): nat {
    if pigs == [] then 0 else pigs[0].likes + SumLikes(pigs[1..])
  }

  /** The distinct `location` values. */
  function Locations(pigs: seq<Pig>): (r: set<string>)
    ensures |r| <= |pigs|
    ensures pigs != [] ==> pigs[0].location in r
  {
    if pigs == [] then {}
    else
      var rest := Locations(pigs[1..]);
      assert |{pigs[0].location} + rest| <= 1 + |rest|;
      {pigs[0].location} + rest
  }

  /** `COUNT(DISTINCT location)` counts every location that occurs in the table ... */
  lemma {:induction false} LocationsCover(pigs: seq<Pig>)
    ensures forall i :: 0 <= i < |pigs| ==> pigs[i].location in Locations(pigs)
  {
    if pigs != [] {
      LocationsCover(pigs[1..]);
      forall i | 1 <= i < |pigs| ensures pigs[i].location in Locations(pigs) {
        assert pigs[1..][i - 1] == pigs[i];
      }
    }
  }

  /** ... and nothing else. */
  lemma {:induction false} LocationsOccur(pigs: seq<Pig>)
    ensures forall l :: l in Locations(pigs) ==> exists i :: 0 <= i < |pigs| && pigs[i].location == l
  {
    if pigs != [] {
      LocationsOccur(pigs[1..]);
      forall l | l in Locations(pigs) ensures exists i :: 0 <= i < |pigs| && pigs[i].location == l {
        if l != pigs[0].location {
          assert Locations(pigs) == {pigs[0].location} + Locations(pigs[1..]);
          assert l in Locations(pigs[1..]);
          var k :| 0 <= k < |pigs[1..]| && pigs[1..][k].location == l;
          assert pigs[k + 1].location == l;
        }
      }
    }
  }

  function PigStats(pigs: seq<Pig>): (s: Stats)
    ensures s.total == |pigs|
    ensures s.totalLikes.None? <==> pigs == []
    ensures s.totalLikes.Some? ==> s.totalLikes.value == SumLikes(pigs)
    ensures s.countries <= s.total
    ensures s.countries == 0 <==> pigs == []
  {
    Stats(|pigs|, if pigs == [] then None else Some(SumLikes(pigs)), |Locations(pigs)|)
  }

  /** A comment as the comment listing returns it: `id, content, created_at`. */
  datatype CommentView = CommentView(id: nat, content: string, createdAt: int)

  function CommentCreatedKey(c: CommentView): int { c.createdAt }

  /** `WHERE pig_id = ?`, projected onto the listed columns. */
  function CommentsOf(comments: seq<Comment>, pigId: int): (r: seq<CommentView>)
    ensures |r| == CommentCount(comments, pigId)
    ensures forall v :: v in r ==>
              exists c :: c in comments && c.pigId == pigId && v == CommentView(c.id, c.content, c.createdAt)
  {
    if comments == [] then []
    else
      var c := comments[0];
      var rest := CommentsOf(comments[1..], pigId);
      var r := (if c.pigId == pigId then [CommentView(c.id, c.content, c.createdAt)] else []) + rest;
      forall v | v in rest
        ensures exists d :: d in comments && d.pigId == pigId && v == CommentView(d.id, d.content, d.createdAt)
      {
        var d :| d in comments[1..] && d.pigId == pigId && v == CommentView(d.id, d.content, d.createdAt);
        assert d in comments;
      }
      r
  }

  datatype CommentPage = CommentPage(total: nat, page: int, comments: seq<CommentView>)

  /**
   * `GET /api/pigs/:id/comments`: 400 exactly when `!parseInt(id)`, with no check that
   * the pig exists; otherwise the count of the pig's comments and the page echoed.
   */
  function ListComments(comments: seq<Comment>, idParam: string, paging: Paging): (r: Reply<CommentPage>)
    ensures r.Err? <==> Numbers.FalsyId(idParam)
    ensures r.Err? ==> r == Err(400, MsgBadId)
    ensures r.Ok? ==> r.body.total == CommentCount(comments, Numbers.ParseInt(idParam).value)
                      && r.body.page == PageOf(paging)
  {
    match Numbers.ParseInt(idParam)
    case None => Err(400, MsgBadId)
    case Some(id) =>
      if id == 0 then Err(400, MsgBadId)
      else
        var page := PageOf(paging);
        var limit := LimitOf(paging);
        Ok(CommentPage(CommentCount(comments, id), page,
                       Window(SortDesc(CommentsOf(comments, id), CommentCreatedKey), limit, page * limit)))
  }

  /** A listed page holds the pig's comments only, newest first, at most `limit` of them. */
  lemma ListCommentsSpec(comments: seq<Comment>, idParam: string, paging: Paging)
    ensures var r := ListComments(comments, idParam, paging);
      r.Ok? ==>
            var id := Numbers.ParseInt(idParam).value;
            && SortedDesc(r.body.comments, CommentCreatedKey)
            && (LimitOf(paging) > 0 ==> |r.body.comments| <= LimitOf(paging))
            && forall v :: v in r.body.comments ==>
                 exists c :: c in comments && c.pigId == id && v == CommentView(c.id, c.content, c.createdAt)
  {
    var r := ListComments(comments, idParam, paging);
    if r.Ok? {
      var id := Numbers.ParseInt(idParam).value;
      var rows := CommentsOf(comments, id);
      var limit := LimitOf(paging);
      var offset := PageOf(paging) * limit;
      SortDescCorrect(rows, CommentCreatedKey);
      WindowSorted(SortDesc(rows, CommentCreatedKey), CommentCreatedKey, limit, offset);
      forall v | v in r.body.comments
        ensures exists c :: c in comments && c.pigId == id && v == CommentView(c.id, c.content, c.createdAt)
      {
        WindowOfSortedFrom(rows, CommentCreatedKey, limit, offset, v);
      }
    }
  }

  /** The projection misses no comment of the pig. */
  lemma {:induction false} CommentsOfComplete(comments: seq<Comment>, pigId: int, c: Comment)
    requires c in comments && c.pigId == pigId
    ensures CommentView(c.id, c.content, c.createdAt) in CommentsOf(comments, pigId)
  {
    if comments[0] != c {
      CommentsOfComplete(comments[1..], pigId, c);
    }
  }

  /**
   * The page is the window of `limit` rows at `page * limit` of a newest-first
   * ordering of exactly the pig's comments.
   */
  lemma ListCommentsIsWindow(comments: seq<Comment>, idParam: string, paging: Paging)
    requires !Numbers.FalsyId(idParam)
    ensures var r := ListComments(comments, idParam, paging);
      && r.Ok?
      && exists ordered: seq<CommentView> ::
           && SortedDesc(ordered, CommentCreatedKey)
           && multiset(ordered) == multiset(CommentsOf(comments, Numbers.ParseInt(idParam).value))
           && r.body.comments == Window(ordered, LimitOf(paging), PageOf(paging) * LimitOf(paging))
  {
    SortDescCorrect(CommentsOf(comments, Numbers.ParseInt(idParam).value), CommentCreatedKey);
  }
}
