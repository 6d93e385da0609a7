/**
 * The state-changing handlers as functions from the tables before a request to
 * the reply and the tables after it: `POST /api/pigs`, `POST /api/pigs/:id/like`
 * and `POST /api/pigs/:id/comments`. Each runs its validation chain in the
 * source's order and stops at the first failing step. The clock is the
 * parameter `now`, the geo database the oracle `geo`.
 */
module Handlers {
  import opened Wrappers
  import opened Schema
  import opened Replies
  import opened RateLimit
  import Text
  import Numbers
  import Network
  import Queries

  /** A reply together with the tables it leaves behind. */
  datatype Step<T> = Step(reply: Reply<T>, tables: Tables)

  /** The success body of a submission: the new row's id and the message. */
  datatype Created = Created(id: nat, message: string)

  /** The success body of a comment: its id, the message and an echo of the stored comment. */
  datatype Posted = Posted(id: nat, message: string, comment: Queries.CommentView)

  const ImagePrefix: string := "data:image/"

  /** The body checks of a submission, in the order they run. */
  predicate ValidSubmission(name: Option<string>, image: Option<string>) {
    && Network.Truthy(name) && Network.Truthy(image)
    && |name.value| <= MaxNameLength
    && Text.StartsWith(image.value, ImagePrefix)
  }

  /** `POST /api/pigs`. */
  function Submit(t: Tables, name: Option<string>, image: Option<string>, h: Network.Headers,
                  geo: string -> Option<Network.GeoRecord>, now: int): (s: Step<Created>)
    ensures !Network.Truthy(name) || !Network.Truthy(image) ==> s == Step(Err(400, MsgMissingParams), t)
    ensures Network.Truthy(name) && Network.Truthy(image) && |name.value| > MaxNameLength ==>
              s == Step(Err(400, MsgNameTooLong), t)
    ensures (Network.Truthy(name) && Network.Truthy(image) && |name.value| <= MaxNameLength &&
             !Text.StartsWith(image.value, ImagePrefix)) ==> s == Step(Err(400, MsgBadImage), t)
    ensures ValidSubmission(name, image) ==>
              (s.reply.Ok? <==> CountRecent(t.submissions, Network.ClientIp(h), Cutoff(now)) < MaxSubmissions)
    ensures ValidSubmission(name, image) && s.reply.Err? ==>
              s == Step(Err(429, MsgTooManyPigs), t.(submissions := Sweep(t.submissions, Cutoff(now))))
    ensures s.reply.Ok? ==>
              var ip := Network.ClientIp(h);
              && s.reply.body == Created(t.nextPigId, MsgSubmitted)
              && s.tables == t.(pigs := t.pigs + [Pig(t.nextPigId, name.value, image.value,
                                                     Network.Location(ip, geo), ip, 0, now)],
                                nextPigId := t.nextPigId + 1,
                                submissions := Sweep(t.submissions, Cutoff(now)) + [LogRow(ip, now)])
  {
    if !Network.Truthy(name) || !Network.Truthy(image) then Step(Err(400, MsgMissingParams), t)
    else if |name.value| > MaxNameLength then Step(Err(400, MsgNameTooLong), t)
    else if !Text.StartsWith(image.value, ImagePrefix) then Step(Err(400, MsgBadImage), t)
    else
      var ip := Network.ClientIp(h);
      var v := Check(t.submissions, ip, now, MaxSubmissions);
      if !v.allowed then Step(Err(429, MsgTooManyPigs), t.(submissions := v.log))
      else
        var pig := Pig(t.nextPigId, name.value, image.value, Network.Location(ip, geo), ip, 0, now);
        Step(Ok(Created(t.nextPigId, MsgSubmitted)),
             t.(pigs := t.pigs + [pig], nextPigId := t.nextPigId + 1,
                submissions := v.log + [LogRow(ip, now)]))
  }

  /** Appending a row keeps every pig already there. */
  lemma HasPigAppend(pigs: seq<Pig>, p: Pig, id: int)
    requires HasPig(pigs, id)
    ensures HasPig(pigs + [p], id)
  {
    var i :| 0 <= i < |pigs| && pigs[i].id == id;
    assert (pigs + [p])[i] == pigs[i];
  }

  /** A submission keeps the tables well formed: the new id is fresh and above all others. */
  lemma SubmitKeepsWellformed(t: Tables, name: Option<string>, image: Option<string>, h: Network.Headers,
                              geo: string -> Option<Network.GeoRecord>, now: int)
    requires Wellformed(t)
    ensures Wellformed(Submit(t, name, image, h, geo, now).tables)
  {
    var s := Submit(t, name, image, h, geo, now);
    if s.reply.Ok? {
      InsertPigKeepsWellformed(t, s.tables.pigs[|t.pigs|], s.tables.submissions);
    }
  }

  /**
   * A successful submission at `now` counts against its address at every later
   * check inside its window: one more than before.
   */
  lemma SubmitCounts(t: Tables, name: Option<string>, image: Option<string>, h: Network.Headers,
                     geo: string -> Option<Network.GeoRecord>, now: int, later: int)
    requires Submit(t, name, image, h, geo, now).reply.Ok?
    requires now <= later < now + WindowMs
    ensures CountRecent(Submit(t, name, image, h, geo, now).tables.submissions, Network.ClientIp(h), Cutoff(later))
            == CountRecent(t.submissions, Network.ClientIp(h), Cutoff(later)) + 1
  {
    var ip := Network.ClientIp(h);
    SweepKeepsCount(t.submissions, Cutoff(now), ip, Cutoff(later));
    RecordedRowCounts(Sweep(t.submissions, Cutoff(now)), ip, now, later);
  }

  /** Three admitted submissions from one address, then a fourth one inside the first's window is refused. */
  lemma FourthSubmissionRejected(t0: Tables, name: Option<string>, image: Option<string>, h: Network.Headers,
                                 geo: string -> Option<Network.GeoRecord>, n1: int, n2: int, n3: int, n4: int)
    requires n1 <= n2 <= n3 <= n4 < n1 + WindowMs
    requires Submit(t0, name, image, h, geo, n1).reply.Ok?
    requires Submit(Submit(t0, name, image, h, geo, n1).tables, name, image, h, geo, n2).reply.Ok?
    requires Submit(Submit(Submit(t0, name, image, h, geo, n1).tables, name, image, h, geo, n2).tables,
                    name, image, h, geo, n3).reply.Ok?
    ensures Submit(Submit(Submit(Submit(t0, name, image, h, geo, n1).tables, name, image, h, geo, n2).tables,
                          name, image, h, geo, n3).tables, name, image, h, geo, n4)
            == Step(Err(429, MsgTooManyPigs),
                    Submit(Submit(Submit(t0, name, image, h, geo, n1).tables, name, image, h, geo, n2).tables,
                           name, image, h, geo, n3).tables.(submissions :=
                      Sweep(Submit(Submit(Submit(t0, name, image, h, geo, n1).tables, name, image, h, geo, n2).tables,
                                   name, image, h, geo, n3).tables.submissions, Cutoff(n4))))
  {
    var t1 := Submit(t0, name, image, h, geo, n1).tables;
    var t2 := Submit(t1, name, image, h, geo, n2).tables;
    var t3 := Submit(t2, name, image, h, geo, n3).tables;
    var ip := Network.ClientIp(h);
    SubmitCounts(t0, name, image, h, geo, n1, n4);
    SubmitCounts(t1, name, image, h, geo, n2, n4);
    SubmitCounts(t2, name, image, h, geo, n3, n4);
    assert CountRecent(t3.submissions, ip, Cutoff(n4)) >= MaxSubmissions;
  }

  /** Once its earlier submissions have aged out, an address with a valid body is admitted again. */
  lemma SubmitAfterWindow(t: Tables, name: Option<string>, image: Option<string>, h: Network.Headers,
                          geo: string -> Option<Network.GeoRecord>, now: int)
    requires ValidSubmission(name, image)
    requires forall i :: 0 <= i < |t.submissions| && t.submissions[i].ip == Network.ClientIp(h) ==>
               t.submissions[i].timestamp <= Cutoff(now)
    ensures Submit(t, name, image, h, geo, now).reply == Ok(Created(t.nextPigId, MsgSubmitted))
  {
    AgedOutAdmitted(t.submissions, Network.ClientIp(h), now, MaxSubmissions);
  }

  /**
   * A submitted pig can be read back: the id in the reply, written into a URL,
   * leads the detail read to the new row, without its address.
   */
  lemma SubmitThenDetail(t: Tables, name: Option<string>, image: Option<string>, h: Network.Headers,
                         geo: string -> Option<Network.GeoRecord>, now: int)
    requires Wellformed(t)
    requires Submit(t, name, image, h, geo, now).reply.Ok?
    ensures var s := Submit(t, name, image, h, geo, now);
      Queries.PigDetail(s.tables.pigs, Numbers.Decimal(s.reply.body.id))
      == Ok(Queries.PigView(t.nextPigId, name.value, image.value,
                            Network.Location(Network.ClientIp(h), geo), 0, now))
  {
    var s := Submit(t, name, image, h, geo, now);
    var id := s.reply.body.id;
    Numbers.ParseDecimal(id);
    SubmitKeepsWellformed(t, name, image, h, geo, now);
    var pigs := s.tables.pigs;
    assert pigs[|t.pigs|].id == id;
    assert HasPig(pigs, id);
    var r := Queries.PigDetail(pigs, Numbers.Decimal(id));
    var p :| p in pigs && p.id == id && r.body == Queries.View(p);
    var k :| 0 <= k < |pigs| && pigs[k] == p;
    assert forall j :: 0 <= j < |t.pigs| ==> pigs[j].id < id;
    assert k == |t.pigs|;
  }

  /** One row under `SET likes = likes + 1 WHERE id = ?`. */
  function Bump(p: Pig, id: int): (r: Pig)
    ensures r.(likes := p.likes) == p
    ensures p.likes <= r.likes <= p.likes + 1
    ensures r.likes != p.likes <==> p.id == id
  {
    if p.id == id then p.(likes := p.likes + 1) else p
  }

  /** `UPDATE pigs SET likes = likes + 1 WHERE id = ?`. */
  function IncrementLikes(pigs: seq<Pig>, id: int): (r: seq<Pig>)
    ensures |r| == |pigs|
  {
    if pigs == [] then [] else [Bump(pigs[0], id)] + IncrementLikes(pigs[1..], id)
  }

  /** The update applies to every row on its own. */
  lemma {:induction false} IncrementRows(pigs: seq<Pig>, id: int)
    ensures forall i :: 0 <= i < |pigs| ==> IncrementLikes(pigs, id)[i] == Bump(pigs[i], id)
  {
    if pigs != [] {
      IncrementRows(pigs[1..], id);
      forall i | 1 <= i < |pigs| ensures IncrementLikes(pigs, id)[i] == Bump(pigs[i], id) {
        assert pigs[1..][i - 1] == pigs[i];
      }
    }
  }

  /** An update that matches no row changes nothing. */
  lemma IncrementAbsent(pigs: seq<Pig>, id: int)
    requires !HasPig(pigs, id)
    ensures IncrementLikes(pigs, id) == pigs
  {
    IncrementRows(pigs, id);
    assert forall i :: 0 <= i < |pigs| ==> Bump(pigs[i], id) == pigs[i];
  }

  /** The row read back after the update is the first matching row, one like up. */
  lemma {:induction false} FindIncremented(pigs: seq<Pig>, id: int)
    ensures Queries.FindPig(IncrementLikes(pigs, id), id)
            == if Queries.FindPig(pigs, id).Some? then Some(Bump(Queries.FindPig(pigs, id).value, id)) else None
  {
    if pigs != [] {
      FindIncremented(pigs[1..], id);
    }
  }

  /** The read-back finds a row exactly when the update matched one, and sees its count one higher. */
  lemma ReadBackLikes(pigs: seq<Pig>, id: int)
    ensures Queries.FindPig(IncrementLikes(pigs, id), id).Some? <==> HasPig(pigs, id)
    ensures HasPig(pigs, id) ==>
              Queries.FindPig(IncrementLikes(pigs, id), id).value.likes == Queries.FindPig(pigs, id).value.likes + 1
  {
    FindIncremented(pigs, id);
  }

  /** The like handler once the id has parsed: update, then read the row back (404 when absent). */
  function LikeById(t: Tables, id: int): (s: Step<nat>)
    ensures !HasPig(t.pigs, id) ==> s == Step(Err(404, MsgNoPig), t)
    ensures HasPig(t.pigs, id) ==>
              s == Step(Ok(Queries.FindPig(t.pigs, id).value.likes + 1), t.(pigs := IncrementLikes(t.pigs, id)))
  {
    var pigs := IncrementLikes(t.pigs, id);
    ReadBackLikes(t.pigs, id);
    match Queries.FindPig(pigs, id)
    case None =>
      IncrementAbsent(t.pigs, id);
      Step(Err(404, MsgNoPig), t.(pigs := pigs))
    case Some(p) => Step(Ok(p.likes), t.(pigs := pigs))
  }

  /** `POST /api/pigs/:id/like`: 400 for `!parseInt(id)`, then the update and the read-back. */
  function Like(t: Tables, idParam: string): (s: Step<nat>)
    ensures Numbers.FalsyId(idParam) ==> s == Step(Err(400, MsgBadId), t)
    ensures !Numbers.FalsyId(idParam) ==> s == LikeById(t, Numbers.ParseInt(idParam).value)
  {
    if Numbers.FalsyId(idParam) then Step(Err(400, MsgBadId), t)
    else LikeById(t, Numbers.ParseInt(idParam).value)
  }

  /** With increasing ids, the update touches the one row carrying the id. */
  lemma IncrementUnique(pigs: seq<Pig>, next: nat, i: nat)
    requires PigIdsOrdered(pigs, next)
    requires i < |pigs|
    ensures IncrementLikes(pigs, pigs[i].id) == pigs[i := pigs[i].(likes := pigs[i].likes + 1)]
  {
    var r := IncrementLikes(pigs, pigs[i].id);
    IncrementRows(pigs, pigs[i].id);
    var u := pigs[i := pigs[i].(likes := pigs[i].likes + 1)];
    forall j | 0 <= j < |pigs| ensures r[j] == u[j] {
      if j != i {
        assert pigs[j].id != pigs[i].id;
      }
    }
  }

  /**
   * With unique ids a like of an existing pig changes exactly that row, by exactly
   * one like, and replies with the row's new count.
   */
  lemma LikeOneRow(t: Tables, id: int)
    requires Wellformed(t)
    requires HasPig(t.pigs, id)
    ensures exists i :: 0 <= i < |t.pigs| && t.pigs[i].id == id &&
              LikeById(t, id) == Step(Ok(t.pigs[i].likes + 1),
                                      t.(pigs := t.pigs[i := t.pigs[i].(likes := t.pigs[i].likes + 1)]))
  {
    var p := Queries.FindPig(t.pigs, id).value;
    var i :| 0 <= i < |t.pigs| && t.pigs[i] == p;
    IncrementUnique(t.pigs, t.nextPigId, i);
    assert LikeById(t, id) == Step(Ok(t.pigs[i].likes + 1),
                                   t.(pigs := t.pigs[i := t.pigs[i].(likes := t.pigs[i].likes + 1)]));
  }

  lemma {:induction false} SumLikesUpdate(pigs: seq<Pig>, i: nat, p: Pig)
    requires i < |pigs|
    ensures Queries.SumLikes(pigs[i := p]) + pigs[i].likes == Queries.SumLikes(pigs) + p.likes
  {
    if i > 0 {
      assert pigs[i := p][1..] == pigs[1..][i - 1 := p];
      SumLikesUpdate(pigs[1..], i - 1, p);
    } else {
      assert pigs[i := p][1..] == pigs[1..];
    }
  }

  lemma {:induction false} LocationsUpdate(pigs: seq<Pig>, i: nat, p: Pig)
    requires i < |pigs| && p.location == pigs[i].location
    ensures Queries.Locations(pigs[i := p]) == Queries.Locations(pigs)
  {
    if i > 0 {
      assert pigs[i := p][1..] == pigs[1..][i - 1 := p];
      LocationsUpdate(pigs[1..], i - 1, p);
    } else {
      assert pigs[i := p][1..] == pigs[1..];
    }
  }

  /** One more like on one row: one more in the like total, same row count, same locations. */
  lemma StatsAfterBump(pigs: seq<Pig>, i: nat)
    requires i < |pigs|
    ensures Queries.PigStats(pigs[i := pigs[i].(likes := pigs[i].likes + 1)])
            == Queries.PigStats(pigs).(totalLikes := Some(Queries.SumLikes(pigs) + 1))
  {
    var bumped := pigs[i].(likes := pigs[i].likes + 1);
    SumLikesUpdate(pigs, i, bumped);
    LocationsUpdate(pigs, i, bumped);
  }

  /** With unique ids, the update of an existing id adds one to the like total and nothing else. */
  lemma IncrementStats(pigs: seq<Pig>, next: nat, id: int)
    requires PigIdsOrdered(pigs, next)
    requires HasPig(pigs, id)
    ensures Queries.PigStats(IncrementLikes(pigs, id))
            == Queries.PigStats(pigs).(totalLikes := Some(Queries.SumLikes(pigs) + 1))
  {
    var i :| 0 <= i < |pigs| && pigs[i].id == id;
    IncrementUnique(pigs, next, i);
    StatsAfterBump(pigs, i);
  }

  /** A successful like raises the `/api/stats` like total by exactly one and leaves the other figures. */
  lemma LikeRaisesStats(t: Tables, id: int)
    requires Wellformed(t)
    requires HasPig(t.pigs, id)
    ensures Queries.PigStats(LikeById(t, id).tables.pigs)
            == Queries.PigStats(t.pigs).(totalLikes := Some(Queries.SumLikes(t.pigs) + 1))
  {
    IncrementStats(t.pigs, t.nextPigId, id);
  }

  /** A like never changes which pigs, comments or log rows exist, so the tables stay well formed. */
  lemma LikeKeepsWellformed(t: Tables, id: int)
    requires Wellformed(t)
    ensures Wellformed(LikeById(t, id).tables)
  {
    if HasPig(t.pigs, id) {
      var pigs := IncrementLikes(t.pigs, id);
      IncrementRows(t.pigs, id);
      assert forall i :: 0 <= i < |pigs| ==> pigs[i].id == t.pigs[i].id;
      SameIdsKeepsWellformed(t, pigs);
    }
  }

  /** `!content || typeof content !== 'string' || !content.trim()`, on the string-or-absent field. */
  predicate BlankContent(content: Option<string>) {
    content.None? || Text.Trim(content.value) == []
  }

  /** Content that passes both content checks: present, not blank, at most 200 characters once trimmed. */
  predicate CheckedContent(content: Option<string>) {
    !BlankContent(content) && |Text.Trim(content.value)| <= MaxCommentLength
  }

  /** The comment handler once the id has parsed: content, length, pig, limiter, insert. */
  function CommentOn(t: Tables, id: int, content: Option<string>, h: Network.Headers, now: int): (s: Step<Posted>)
    ensures BlankContent(content) ==> s == Step(Err(400, MsgEmptyComment), t)
    ensures !BlankContent(content) && |Text.Trim(content.value)| > MaxCommentLength ==>
              s == Step(Err(400, MsgCommentTooLong), t)
    ensures (CheckedContent(content) && !HasPig(t.pigs, id)) ==>
              s == Step(Err(404, MsgNoPig), t)
    ensures (CheckedContent(content) && HasPig(t.pigs, id)) ==>
              && (s.reply.Ok? <==> CountRecent(t.commentSubmissions, Network.ClientIp(h), Cutoff(now)) < MaxComments)
              && (s.reply.Err? ==>
                    s == Step(Err(429, MsgTooManyComments),
                              t.(commentSubmissions := Sweep(t.commentSubmissions, Cutoff(now)))))
    ensures s.reply.Ok? ==>
              var ip := Network.ClientIp(h);
              var text := Text.Trim(content.value);
              && HasPig(t.pigs, id)
              && s.reply.body == Posted(t.nextCommentId, MsgCommented,
                                        Queries.CommentView(t.nextCommentId, text, now))
              && StoredContent(text)
              && s.tables == t.(comments := t.comments + [Comment(t.nextCommentId, id, text, ip, now)],
                                nextCommentId := t.nextCommentId + 1,
                                commentSubmissions := Sweep(t.commentSubmissions, Cutoff(now)) + [LogRow(ip, now)])
  {
    if BlankContent(content) then Step(Err(400, MsgEmptyComment), t)
    else
      var text := Text.Trim(content.value);
      if |text| > MaxCommentLength then Step(Err(400, MsgCommentTooLong), t)
      else if Queries.FindPig(t.pigs, id).None? then Step(Err(404, MsgNoPig), t)
      else
        Text.TrimTrimmed(content.value);
        Admit(t, id, text, Network.ClientIp(h), now)
  }

  /**
   * The rest of the comment handler, for checked content on an existing pig: limiter,
   * insert, record. The limiter decides on the count before the sweep; a refusal keeps
   * the sweep and adds nothing; an acceptance inserts the comment under the next id and
   * logs the address.
   */
  function Admit(t: Tables, id: int, text: string, ip: string, now: int): (s: Step<Posted>)
    ensures s.reply.Ok? <==> CountRecent(t.commentSubmissions, ip, Cutoff(now)) < MaxComments
    ensures s.reply.Err? ==>
              s == Step(Err(429, MsgTooManyComments), t.(commentSubmissions := Sweep(t.commentSubmissions, Cutoff(now))))
    ensures s.reply.Ok? ==>
              && s.reply.body == Posted(t.nextCommentId, MsgCommented, Queries.CommentView(t.nextCommentId, text, now))
              && s.tables == t.(comments := t.comments + [Comment(t.nextCommentId, id, text, ip, now)],
                                nextCommentId := t.nextCommentId + 1,
                                commentSubmissions := Sweep(t.commentSubmissions, Cutoff(now)) + [LogRow(ip, now)])
  {
    var v := Check(t.commentSubmissions, ip, now, MaxComments);
    if !v.allowed then Step(Err(429, MsgTooManyComments), t.(commentSubmissions := v.log))
    else
      Step(Ok(Posted(t.nextCommentId, MsgCommented, Queries.CommentView(t.nextCommentId, text, now))),
           t.(comments := t.comments + [Comment(t.nextCommentId, id, text, ip, now)],
              nextCommentId := t.nextCommentId + 1,
              commentSubmissions := v.log + [LogRow(ip, now)]))
  }

  /** Content that passes the checks, on an existing pig, goes on to the limiter as its trimmed text. */
  lemma CommentOnAdmits(t: Tables, id: int, content: Option<string>, h: Network.Headers, now: int)
    requires CheckedContent(content) && HasPig(t.pigs, id)
    ensures CommentOn(t, id, content, h, now) == Admit(t, id, Text.Trim(content.value), Network.ClientIp(h), now)
    ensures StoredContent(Text.Trim(content.value))
  {
    Text.TrimTrimmed(content.value);
  }

  /** `POST /api/pigs/:id/comments`: 400 for `!parseInt(id)` before anything else is looked at. */
  function AddComment(t: Tables, idParam: string, content: Option<string>, h: Network.Headers,
                      now: int): (s: Step<Posted>)
    ensures Numbers.FalsyId(idParam) ==> s == Step(Err(400, MsgBadId), t)
    ensures !Numbers.FalsyId(idParam) ==> s == CommentOn(t, Numbers.ParseInt(idParam).value, content, h, now)
  {
    if Numbers.FalsyId(idParam) then Step(Err(400, MsgBadId), t)
    else CommentOn(t, Numbers.ParseInt(idParam).value, content, h, now)
  }

  /** The limiter and the insert keep the tables well formed for stored-form text on an existing pig. */
  lemma AdmitKeepsWellformed(t: Tables, id: int, text: string, ip: string, now: int)
    requires Wellformed(t) && StoredContent(text) && HasPig(t.pigs, id)
    ensures Wellformed(Admit(t, id, text, ip, now).tables)
  {
    var v := Check(t.commentSubmissions, ip, now, MaxComments);
    if v.allowed {
      InsertCommentKeepsWellformed(t, Comment(t.nextCommentId, id, text, ip, now), v.log + [LogRow(ip, now)]);
    }
  }

  /** A comment keeps the tables well formed: trimmed 1..200-character text on an existing pig. */
  lemma CommentKeepsWellformed(t: Tables, id: int, content: Option<string>, h: Network.Headers, now: int)
    requires Wellformed(t)
    ensures Wellformed(CommentOn(t, id, content, h, now).tables)
  {
    var s := CommentOn(t, id, content, h, now);
    if CheckedContent(content) && HasPig(t.pigs, id) {
      var text, ip := Text.Trim(content.value), Network.ClientIp(h);
      CommentOnAdmits(t, id, content, h, now);
      AdmitKeepsWellformed(t, id, text, ip, now);
      assert s.tables == Admit(t, id, text, ip, now).tables;
    } else {
      assert s.tables == t;
    }
  }

  /** A successful comment counts against its address at every later comment check inside its window. */
  lemma CommentCounts(t: Tables, id: int, content: Option<string>, h: Network.Headers,
                      now: int, later: int)
    requires CommentOn(t, id, content, h, now).reply.Ok?
    requires now <= later < now + WindowMs
    ensures CountRecent(CommentOn(t, id, content, h, now).tables.commentSubmissions,
                        Network.ClientIp(h), Cutoff(later))
            == CountRecent(t.commentSubmissions, Network.ClientIp(h), Cutoff(later)) + 1
  {
    var ip := Network.ClientIp(h);
    SweepKeepsCount(t.commentSubmissions, Cutoff(now), ip, Cutoff(later));
    RecordedRowCounts(Sweep(t.commentSubmissions, Cutoff(now)), ip, now, later);
  }

  /** The two limiters keep separate logs: a submission never touches the comment log. */
  lemma SubmitLeavesCommentLog(t: Tables, name: Option<string>, image: Option<string>, h: Network.Headers,
                               geo: string -> Option<Network.GeoRecord>, now: int)
    ensures Submit(t, name, image, h, geo, now).tables.commentSubmissions == t.commentSubmissions
    ensures Submit(t, name, image, h, geo, now).tables.comments == t.comments
  {
  }

  /** A comment never touches the submission log or the pigs. */
  lemma CommentLeavesSubmissionLog(t: Tables, idParam: string, content: Option<string>, h: Network.Headers, now: int)
    ensures AddComment(t, idParam, content, h, now).tables.submissions == t.submissions
    ensures AddComment(t, idParam, content, h, now).tables.pigs == t.pigs
  {
  }

  lemma {:induction false} CommentCountAppend(comments: seq<Comment>, c: Comment, pigId: int)
    ensures Queries.CommentCount(comments + [c], pigId)
            == Queries.CommentCount(comments, pigId) + (if c.pigId == pigId then 1 else 0)
  {
    if comments == [] {
      assert comments + [c] == [c];
    } else {
      assert (comments + [c])[1..] == comments[1..] + [c];
      CommentCountAppend(comments[1..], c, pigId);
    }
  }

  /** An accepted comment is appended to the comment table as the next row. */
  lemma CommentAppended(t: Tables, id: int, content: Option<string>, h: Network.Headers, now: int)
    requires CommentOn(t, id, content, h, now).reply.Ok?
    ensures CommentOn(t, id, content, h, now).tables.comments
            == t.comments + [Comment(t.nextCommentId, id, Text.Trim(content.value), Network.ClientIp(h), now)]
  {
  }

  /** One more comment row for pig `id`: its listing total goes up by one, and no other pig's count moves. */
  lemma ListedAfterAppend(comments: seq<Comment>, c: Comment, idParam: string, other: int)
    requires !Numbers.FalsyId(idParam) && c.pigId == Numbers.ParseInt(idParam).value
    ensures var r := Queries.ListComments(comments + [c], idParam, Queries.Paging(None, None));
      && r.Ok?
      && r.body.total == Queries.CommentCount(comments, c.pigId) + 1
      && (other != c.pigId ==> Queries.CommentCount(comments + [c], other) == Queries.CommentCount(comments, other))
  {
    CommentCountAppend(comments, c, c.pigId);
    CommentCountAppend(comments, c, other);
  }

  /**
   * A posted comment shows up: it is among the pig's listed comments, the pig's
   * comment total, in the listing and in its row's `comment_count`, goes up by
   * one, and no other pig's count moves.
   */
  lemma AddCommentThenList(t: Tables, idParam: string, content: Option<string>, h: Network.Headers, now: int,
                           other: int)
    requires AddComment(t, idParam, content, h, now).reply.Ok?
    ensures var after := AddComment(t, idParam, content, h, now).tables;
            var id := Numbers.ParseInt(idParam).value;
      && Queries.ListComments(after.comments, idParam, Queries.Paging(None, None)).Ok?
      && Queries.ListComments(after.comments, idParam, Queries.Paging(None, None)).body.total
         == Queries.CommentCount(t.comments, id) + 1
      && (other != id ==> Queries.CommentCount(after.comments, other) == Queries.CommentCount(t.comments, other))
      && Queries.CommentView(t.nextCommentId, Text.Trim(content.value), now) in Queries.CommentsOf(after.comments, id)
  {
    var id := Numbers.ParseInt(idParam).value;
    var c := Comment(t.nextCommentId, id, Text.Trim(content.value), Network.ClientIp(h), now);
    CommentAppended(t, id, content, h, now);
    ListedAfterAppend(t.comments, c, idParam, other);
    assert c in t.comments + [c];
    Queries.CommentsOfComplete(t.comments + [c], id, c);
  }
}
