/**
 * The database connection the handlers share, as an object whose tables the
 * handlers change in place, statement by statement, in the source's order:
 * the limiter's `DELETE` and `SELECT COUNT(*)`, the guarded `INSERT` or
 * `UPDATE`, and only then the `INSERT` into the log. Each handler method is
 * proved to leave the tables and return the reply that the corresponding
 * function of `Handlers` gives, and to keep the tables well formed.
 */
module Store {
  import opened Wrappers
  import opened Schema
  import opened Replies
  import opened RateLimit
  import Text
  import Numbers
  import Network
  import Queries
  import Handlers

  class Database {
    var pigs: seq<Pig>
    var comments: seq<Comment>
    var submissions: seq<LogRow>
    var commentSubmissions: seq<LogRow>
    var nextPigId: nat
    var nextCommentId: nat

    /** The current contents of the four tables. */
    function State(): Tables
      reads this
    {
      Tables(pigs, comments, submissions, commentSubmissions, nextPigId, nextCommentId)
    }

    ghost predicate Valid()
      reads this
    {
      Wellformed(State())
    }

    /** `CREATE TABLE IF NOT EXISTS ...` on a fresh file. */
    constructor ()
      ensures State() == EmptyTables()
      ensures Valid()
    {
      pigs, comments, submissions, commentSubmissions := [], [], [], [];
      nextPigId, nextCommentId := 1, 1;
    }

    /** `checkSubmissionLimit(ip)`: delete expired rows of every address, then count the caller's. */
    method CheckSubmissionLimit(ip: string, now: int) returns (allowed: bool)
      modifies this`submissions
      ensures allowed <==> CountRecent(old(submissions), ip, Cutoff(now)) < MaxSubmissions
      ensures submissions == Sweep(old(submissions), Cutoff(now))
    {
      var cutoff := Cutoff(now);
      submissions := Sweep(submissions, cutoff);
      var count := CountRecent(submissions, ip, cutoff);
      SweepKeepsCount(old(submissions), cutoff, ip, cutoff);
      allowed := count < MaxSubmissions;
    }

    /** `recordSubmission(ip)`. */
    method RecordSubmission(ip: string, now: int)
      modifies this`submissions
      ensures submissions == old(submissions) + [LogRow(ip, now)]
    {
      submissions := submissions + [LogRow(ip, now)];
    }

    /** `checkCommentLimit(ip)`: the same sweep and count on `comment_submissions`. */
    method CheckCommentLimit(ip: string, now: int) returns (allowed: bool)
      modifies this`commentSubmissions
      ensures allowed <==> CountRecent(old(commentSubmissions), ip, Cutoff(now)) < MaxComments
      ensures commentSubmissions == Sweep(old(commentSubmissions), Cutoff(now))
    {
      var cutoff := Cutoff(now);
      commentSubmissions := Sweep(commentSubmissions, cutoff);
      var count := CountRecent(commentSubmissions, ip, cutoff);
      SweepKeepsCount(old(commentSubmissions), cutoff, ip, cutoff);
      allowed := count < MaxComments;
    }

    /** `recordCommentSubmission(ip)`. */
    method RecordCommentSubmission(ip: string, now: int)
      modifies this`commentSubmissions
      ensures commentSubmissions == old(commentSubmissions) + [LogRow(ip, now)]
    {
      commentSubmissions := commentSubmissions + [LogRow(ip, now)];
    }

    /** `POST /api/pigs`, statement by statement. */
    method SubmitPig(name: Option<string>, image: Option<string>, h: Network.Headers,
                     geo: string -> Option<Network.GeoRecord>, now: int) returns (reply: Reply<Handlers.Created>)
      requires Valid()
      modifies this`pigs, this`nextPigId, this`submissions
      ensures Handlers.Submit(old(State()), name, image, h, geo, now) == Handlers.Step(reply, State())
      ensures Valid()
    {
      Handlers.SubmitKeepsWellformed(State(), name, image, h, geo, now);
      if !Network.Truthy(name) || !Network.Truthy(image) {
        return Err(400, MsgMissingParams);
      }
      if |name.value| > MaxNameLength {
        return Err(400, MsgNameTooLong);
      }
      if !Text.StartsWith(image.value, Handlers.ImagePrefix) {
        return Err(400, MsgBadImage);
      }
      var ip := Network.ClientIp(h);
      var allowed := CheckSubmissionLimit(ip, now);
      if !allowed {
        return Err(429, MsgTooManyPigs);
      }
      var location := Network.Location(ip, geo);
      var id := nextPigId;
      pigs := pigs + [Pig(id, name.value, image.value, location, ip, 0, now)];
      nextPigId := nextPigId + 1;
      RecordSubmission(ip, now);
      reply := Ok(Handlers.Created(id, MsgSubmitted));
    }

    /** `POST /api/pigs/:id/like`: the update, then the read-back. */
    method LikePig(idParam: string) returns (reply: Reply<nat>)
      requires Valid()
      modifies this`pigs
      ensures Handlers.Like(old(State()), idParam) == Handlers.Step(reply, State())
      ensures Valid()
    {
      var parsed := Numbers.ParseInt(idParam);
      if parsed.None? || parsed.value == 0 {
        return Err(400, MsgBadId);
      }
      var id := parsed.value;
      ghost var t := State();
      assert Handlers.Like(t, idParam) == Handlers.LikeById(t, id);
      Handlers.LikeKeepsWellformed(t, id);
      Handlers.ReadBackLikes(t.pigs, id);
      pigs := Handlers.IncrementLikes(pigs, id);
      assert State() == t.(pigs := Handlers.IncrementLikes(t.pigs, id));
      var row := Queries.FindPig(pigs, id);
      if row.None? {
        Handlers.IncrementAbsent(t.pigs, id);
        return Err(404, MsgNoPig);
      }
      reply := Ok(row.value.likes);
    }

    /** `POST /api/pigs/:id/comments` once the id has parsed: content, length and pig checks. */
    method CommentOnPig(pigId: int, content: Option<string>, h: Network.Headers, now: int)
      returns (reply: Reply<Handlers.Posted>)
      requires Valid()
      modifies this`comments, this`nextCommentId, this`commentSubmissions
      ensures Handlers.CommentOn(old(State()), pigId, content, h, now) == Handlers.Step(reply, State())
      ensures Valid()
    {
      if Handlers.BlankContent(content) {
        return Err(400, MsgEmptyComment);
      }
      var text := Text.Trim(content.value);
      if |text| > MaxCommentLength {
        return Err(400, MsgCommentTooLong);
      }
      if Queries.FindPig(pigs, pigId).None? {
        return Err(404, MsgNoPig);
      }
      var ip := Network.ClientIp(h);
      Handlers.CommentOnAdmits(State(), pigId, content, h, now);
      reply := AdmitComment(pigId, text, ip, now);
    }

    /** The rest of the comment handler: the limiter, the insert under the next id, then the log row. */
    method AdmitComment(pigId: int, text: string, ip: string, now: int) returns (reply: Reply<Handlers.Posted>)
      requires Valid()
      requires StoredContent(text) && HasPig(pigs, pigId)
      modifies this`comments, this`nextCommentId, this`commentSubmissions
      ensures Handlers.Admit(old(State()), pigId, text, ip, now) == Handlers.Step(reply, State())
      ensures Valid()
    {
      Handlers.AdmitKeepsWellformed(State(), pigId, text, ip, now);
      var allowed := CheckCommentLimit(ip, now);
      if !allowed {
        return Err(429, MsgTooManyComments);
      }
      var id := nextCommentId;
      comments, nextCommentId := comments + [Comment(id, pigId, text, ip, now)], nextCommentId + 1;
      RecordCommentSubmission(ip, now);
      reply := Ok(Handlers.Posted(id, MsgCommented, Queries.CommentView(id, text, now)));
    }

    /** `POST /api/pigs/:id/comments`: the id check first. */
    method PostComment(idParam: string, content: Option<string>, h: Network.Headers, now: int)
      returns (reply: Reply<Handlers.Posted>)
      requires Valid()
      modifies this`comments, this`nextCommentId, this`commentSubmissions
      ensures Handlers.AddComment(old(State()), idParam, content, h, now) == Handlers.Step(reply, State())
      ensures Valid()
    {
      var parsed := Numbers.ParseInt(idParam);
      if parsed.None? || parsed.value == 0 {
        return Err(400, MsgBadId);
      }
      ghost var t := State();
      assert Handlers.AddComment(t, idParam, content, h, now) == Handlers.CommentOn(t, parsed.value, content, h, now);
      reply := CommentOnPig(parsed.value, content, h, now);
    }
  }
}
