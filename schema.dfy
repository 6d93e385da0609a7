/**
 * The four SQLite tables of server/db.js as sequences of records, in insertion
 * (rowid) order, together with the AUTOINCREMENT counters of the two tables that
 * have an id column.
 */
module Schema {
  import Text

  /** A row of `pigs`: a submitted drawing. */
  datatype Pig = Pig(id: nat, name: string, image: string, location: string, ip: string,
                     likes: nat, createdAt: int)

  /** A row of `comments`. */
  datatype Comment = Comment(id: nat, pigId: int, content: string, ip: string, createdAt: int)

  /** A row of `submissions` or `comment_submissions`: one admitted request. */
  datatype LogRow = LogRow(ip: string, timestamp: int)

  datatype Tables = Tables(
    pigs: seq<Pig>,
    comments: seq<Comment>,
    submissions: seq<LogRow>,
    commentSubmissions: seq<LogRow>,
    nextPigId: nat,
    nextCommentId: nat)

  /** A fresh database: no rows, both AUTOINCREMENT sequences start at 1. */
  function EmptyTables(): Tables {
    Tables([], [], [], [], 1, 1)
  }

  /** Longest accepted pig name and comment, in characters. */
  const MaxNameLength: nat := 20
  const MaxCommentLength: nat := 200

  predicate HasPig(pigs: seq<Pig>, id: int) {
    exists i :: 0 <= i < |pigs| && pigs[i].id == id
  }

  /** Ids are positive, below the next AUTOINCREMENT value and increase along the table. */
  predicate PigIdsOrdered(pigs: seq<Pig>, next: nat) {
    && 0 < next
    && (forall i :: 0 <= i < |pigs| ==> 0 < pigs[i].id < next)
    && (forall i, j :: 0 <= i < j < |pigs| ==> pigs[i].id < pigs[j].id)
  }

  predicate CommentIdsOrdered(comments: seq<Comment>, next: nat) {
    && 0 < next
    && (forall i :: 0 <= i < |comments| ==> 0 < comments[i].id < next)
    && (forall i, j :: 0 <= i < j < |comments| ==> comments[i].id < comments[j].id)
  }

  /** What the comment handler lets into the table: trimmed, 1 to 200 characters. */
  predicate StoredContent(content: string) {
    Text.Trimmed(content) && 1 <= |content| <= MaxCommentLength
  }

  /** The invariant every handler keeps. */
  predicate Wellformed(t: Tables) {
    && PigIdsOrdered(t.pigs, t.nextPigId)
    && CommentIdsOrdered(t.comments, t.nextCommentId)
    && (forall i :: 0 <= i < |t.comments| ==> StoredContent(t.comments[i].content))
    && (forall i :: 0 <= i < |t.comments| ==> HasPig(t.pigs, t.comments[i].pigId))
  }

  /** Inserting a pig under the next id keeps the invariant; the log tables play no part in it. */
  lemma InsertPigKeepsWellformed(t: Tables, p: Pig, submissions: seq<LogRow>)
    requires Wellformed(t)
    requires p.id == t.nextPigId
    ensures Wellformed(t.(pigs := t.pigs + [p], nextPigId := t.nextPigId + 1, submissions := submissions))
  {
    var pigs := t.pigs + [p];
    forall i | 0 <= i < |t.comments| ensures HasPig(pigs, t.comments[i].pigId) {
      var k :| 0 <= k < |t.pigs| && t.pigs[k].id == t.comments[i].pigId;
      assert pigs[k] == t.pigs[k];
    }
  }

  /** Inserting a stored-form comment on an existing pig under the next id keeps the invariant. */
  lemma InsertCommentKeepsWellformed(t: Tables, c: Comment, log: seq<LogRow>)
    requires Wellformed(t)
    requires c.id == t.nextCommentId && StoredContent(c.content) && HasPig(t.pigs, c.pigId)
    ensures Wellformed(t.(comments := t.comments + [c], nextCommentId := t.nextCommentId + 1,
                          commentSubmissions := log))
  {
    var comments := t.comments + [c];
    assert forall i :: 0 <= i < |t.comments| ==> comments[i] == t.comments[i];
  }

  /** Changing pig rows in place, ids kept, keeps the invariant. */
  lemma SameIdsKeepsWellformed(t: Tables, pigs: seq<Pig>)
    requires Wellformed(t)
    requires |pigs| == |t.pigs| && forall i :: 0 <= i < |pigs| ==> pigs[i].id == t.pigs[i].id
    ensures Wellformed(t.(pigs := pigs))
  {
    forall i | 0 <= i < |t.comments| ensures HasPig(pigs, t.comments[i].pigId) {
      var k :| 0 <= k < |t.pigs| && t.pigs[k].id == t.comments[i].pigId;
      assert pigs[k].id == t.comments[i].pigId;
    }
  }

  lemma EmptyWellformed()
    ensures Wellformed(EmptyTables())
  {
  }
}
