/**
 * The admin page: HTML escaping of the names and locations it lists, the pager
 * arithmetic and buttons, the credential lookup, and the `state` object that the
 * prev/next/search/delete handlers change. Every `fetch` is split into the request
 * a handler sends and a second method that takes the response.
 */
module Admin {
  import opened Wrappers
  import Text
  import Schema
  import Queries
  import Requests

  // ----- escapeHtml -----

  /** What one character becomes: the five markup characters turn into entities. */
  function Entity(c: char): string {
    if c == '&' then "&amp;"
    else if c == '<' then "&lt;"
    else if c == '>' then "&gt;"
    else if c == '"' then "&quot;"
    else if c == '\'' then "&#39;"
    else [c]
  }

  /** The reference definition: every character replaced by its entity, independently. */
  function EscapeEach(s: string): string {
    if s == [] then [] else Entity(s[0]) + EscapeEach(s[1..])
  }

  /** The five chained global replacements, `&` first. */
  function Escape(s: string): string {
    var a := Text.ReplaceAll(s, '&', "&amp;");
    var b := Text.ReplaceAll(a, '<', "&lt;");
    var c := Text.ReplaceAll(b, '>', "&gt;");
    var d := Text.ReplaceAll(c, '"', "&quot;");
    Text.ReplaceAll(d, '\'', "&#39;")
  }

  /** `escapeHtml(str)`: `String(str || '')` and the replacements; a missing value becomes `''`. */
  function EscapeHtml(str: Option<string>): (r: string)
    ensures '<' !in r && '>' !in r && '"' !in r && '\'' !in r
    ensures str.None? ==> r == ""
  {
    var s := str.GetOr("");
    EscapeIsEachwise(s);
    EscapeEachNoMarkup(s);
    Escape(s)
  }

  lemma {:induction false} EscapeEachNoMarkup(s: string)
    ensures '<' !in EscapeEach(s) && '>' !in EscapeEach(s) && '"' !in EscapeEach(s) && '\'' !in EscapeEach(s)
  {
    if s != [] {
      EscapeEachNoMarkup(s[1..]);
      var e := Entity(s[0]);
      assert '<' !in e && '>' !in e && '"' !in e && '\'' !in e;
      assert EscapeEach(s) == e + EscapeEach(s[1..]);
    }
  }

  lemma EscapeAppend(a: string, b: string)
    ensures Escape(a + b) == Escape(a) + Escape(b)
  {
    Text.ReplaceAllAppend(a, b, '&', "&amp;");
    var a1, b1 := Text.ReplaceAll(a, '&', "&amp;"), Text.ReplaceAll(b, '&', "&amp;");
    Text.ReplaceAllAppend(a1, b1, '<', "&lt;");
    var a2, b2 := Text.ReplaceAll(a1, '<', "&lt;"), Text.ReplaceAll(b1, '<', "&lt;");
    Text.ReplaceAllAppend(a2, b2, '>', "&gt;");
    var a3, b3 := Text.ReplaceAll(a2, '>', "&gt;"), Text.ReplaceAll(b2, '>', "&gt;");
    Text.ReplaceAllAppend(a3, b3, '"', "&quot;");
    var a4, b4 := Text.ReplaceAll(a3, '"', "&quot;"), Text.ReplaceAll(b3, '"', "&quot;");
    Text.ReplaceAllAppend(a4, b4, '\'', "&#39;");
  }

  /** A replacement of a character the string does not hold leaves it alone. */
  lemma ReplaceAbsent(s: string, c: char, rep: string)
    requires c !in s
    ensures Text.ReplaceAll(s, c, rep) == s
  {
  }

  lemma ReplaceSingle(x: char, c: char, rep: string)
    ensures Text.ReplaceAll([x], c, rep) == if x == c then rep else [x]
  {
    assert [x][1..] == [];
  }

  /** A string free of the last four markup characters passes the last four replacements unchanged. */
  lemma EscapeTail(s: string)
    requires '<' !in s && '>' !in s && '"' !in s && '\'' !in s
    ensures Text.ReplaceAll(Text.ReplaceAll(Text.ReplaceAll(Text.ReplaceAll(s, '<', "&lt;"), '>', "&gt;"),
                                            '"', "&quot;"), '\'', "&#39;") == s
  {
  }

  /** A string free of `>`, `"` and `'` passes the last three replacements unchanged. */
  lemma AfterLt(s: string)
    requires '>' !in s && '"' !in s && '\'' !in s
    ensures Text.ReplaceAll(Text.ReplaceAll(Text.ReplaceAll(s, '>', "&gt;"), '"', "&quot;"), '\'', "&#39;") == s
  {
  }

  /** A string free of `"` and `'` passes the last two replacements unchanged. */
  lemma AfterGt(s: string)
    requires '"' !in s && '\'' !in s
    ensures Text.ReplaceAll(Text.ReplaceAll(s, '"', "&quot;"), '\'', "&#39;") == s
  {
  }

  lemma EscapeLt()
    ensures Escape(['<']) == "&lt;"
  {
    ReplaceSingle('<', '&', "&amp;");
    ReplaceSingle('<', '<', "&lt;");
    AfterLt("&lt;");
  }

  lemma EscapeGt()
    ensures Escape(['>']) == "&gt;"
  {
    ReplaceSingle('>', '&', "&amp;");
    ReplaceSingle('>', '<', "&lt;");
    ReplaceSingle('>', '>', "&gt;");
    AfterGt("&gt;");
  }

  lemma EscapeQuot()
    ensures Escape(['"']) == "&quot;"
  {
    ReplaceSingle('"', '&', "&amp;");
    ReplaceSingle('"', '<', "&lt;");
    ReplaceSingle('"', '>', "&gt;");
    ReplaceSingle('"', '"', "&quot;");
    ReplaceAbsent("&quot;", '\'', "&#39;");
  }

  lemma EscapeApos()
    ensures Escape(['\'']) == "&#39;"
  {
    ReplaceSingle('\'', '&', "&amp;");
    ReplaceSingle('\'', '<', "&lt;");
    ReplaceSingle('\'', '>', "&gt;");
    ReplaceSingle('\'', '"', "&quot;");
    ReplaceSingle('\'', '\'', "&#39;");
  }

  lemma EscapeChar(c: char)
    ensures Escape([c]) == Entity(c)
  {
    if c == '&' {
      ReplaceSingle(c, '&', "&amp;");
      EscapeTail("&amp;");
    } else if c == '<' {
      EscapeLt();
    } else if c == '>' {
      EscapeGt();
    } else if c == '"' {
      EscapeQuot();
    } else if c == '\'' {
      EscapeApos();
    } else {
      ReplaceSingle(c, '&', "&amp;");
      EscapeTail([c]);
    }
  }

  /** The chained replacements escape each character on its own: `&` first means no entity is escaped twice. */
  lemma {:induction false} EscapeIsEachwise(s: string)
    ensures Escape(s) == EscapeEach(s)
  {
    if s != [] {
      assert s == [s[0]] + s[1..];
      EscapeAppend([s[0]], s[1..]);
      EscapeChar(s[0]);
      EscapeIsEachwise(s[1..]);
    }
  }

  /** Decoding of the five entities; any other character stands for itself. */
  function Unescape(s: string): string
    decreases |s|
  {
    if s == [] then []
    else if "&amp;" <= s then "&" + Unescape(s[5..])
    else if "&lt;" <= s then "<" + Unescape(s[4..])
    else if "&gt;" <= s then ">" + Unescape(s[4..])
    else if "&quot;" <= s then "\"" + Unescape(s[6..])
    else if "&#39;" <= s then "'" + Unescape(s[5..])
    else [s[0]] + Unescape(s[1..])
  }

  lemma UnescapeAmp(rest: string)
    ensures Unescape("&amp;" + rest) == "&" + Unescape(rest)
  {
    var s := "&amp;" + rest;
    assert s[..5] == "&amp;" && s[5..] == rest;
  }

  lemma UnescapeLt(rest: string)
    ensures Unescape("&lt;" + rest) == "<" + Unescape(rest)
  {
    var s := "&lt;" + rest;
    assert s[1] == 'l' && s[..4] == "&lt;" && s[4..] == rest;
  }

  lemma UnescapeGt(rest: string)
    ensures Unescape("&gt;" + rest) == ">" + Unescape(rest)
  {
    var s := "&gt;" + rest;
    assert s[1] == 'g' && s[..4] == "&gt;" && s[4..] == rest;
  }

  lemma UnescapeQuot(rest: string)
    ensures Unescape("&quot;" + rest) == "\"" + Unescape(rest)
  {
    var s := "&quot;" + rest;
    assert s[1] == 'q' && s[..6] == "&quot;" && s[6..] == rest;
  }

  lemma UnescapeApos(rest: string)
    ensures Unescape("&#39;" + rest) == "'" + Unescape(rest)
  {
    var s := "&#39;" + rest;
    assert s[1] == '#' && s[..5] == "&#39;" && s[5..] == rest;
  }

  lemma UnescapeEntity(c: char, rest: string)
    ensures Unescape(Entity(c) + rest) == [c] + Unescape(rest)
  {
    if c == '&' {
      UnescapeAmp(rest);
    } else if c == '<' {
      UnescapeLt(rest);
    } else if c == '>' {
      UnescapeGt(rest);
    } else if c == '"' {
      UnescapeQuot(rest);
    } else if c == '\'' {
      UnescapeApos(rest);
    } else {
      var s := [c] + rest;
      assert s[0] == c && s[1..] == rest;
    }
  }

  /** Unescaping the output gives back the original string. */
  lemma {:induction false} EscapeRoundTrip(s: string)
    ensures Unescape(EscapeEach(s)) == s
  {
    if s != [] {
      UnescapeEntity(s[0], EscapeEach(s[1..]));
      EscapeRoundTrip(s[1..]);
    }
  }

  lemma EscapeHtmlRoundTrip(s: string)
    ensures Unescape(EscapeHtml(Some(s))) == s
  {
    EscapeIsEachwise(s);
    EscapeRoundTrip(s);
  }

  /** One of the five entities starts at position `i`. */
  predicate EntityAt(s: string, i: int) {
    || Text.OccursAt(s, "&amp;", i) || Text.OccursAt(s, "&lt;", i) || Text.OccursAt(s, "&gt;", i)
    || Text.OccursAt(s, "&quot;", i) || Text.OccursAt(s, "&#39;", i)
  }

  lemma EntityAtShift(a: string, b: string, i: int)
    requires EntityAt(b, i)
    ensures EntityAt(a + b, |a| + i)
  {
    forall sub: string | Text.OccursAt(b, sub, i) ensures Text.OccursAt(a + b, sub, |a| + i) {
      assert (a + b)[|a| + i..|a| + i + |sub|] == b[i..i + |sub|];
    }
  }

  /** Within one character's entity an `&` can only be its first character, and there it starts the entity. */
  lemma EntityLeads(c: char, rest: string, i: int)
    requires 0 <= i < |Entity(c)| && (Entity(c) + rest)[i] == '&'
    ensures i == 0 && EntityAt(Entity(c) + rest, 0)
  {
    var e := Entity(c);
    assert (e + rest)[i] == e[i];
    assert (e + rest)[..|e|] == e;
  }

  /** Every `&` of the output begins an entity. */
  lemma {:induction false} AmpersandsStartEntities(s: string)
    ensures forall i :: 0 <= i < |EscapeEach(s)| && EscapeEach(s)[i] == '&' ==> EntityAt(EscapeEach(s), i)
  {
    if s != [] {
      var e, rest := Entity(s[0]), EscapeEach(s[1..]);
      var out := EscapeEach(s);
      assert out == e + rest;
      AmpersandsStartEntities(s[1..]);
      forall i | 0 <= i < |out| && out[i] == '&' ensures EntityAt(out, i) {
        if i < |e| {
          EntityLeads(s[0], rest, i);
        } else {
          assert rest[i - |e|] == '&';
          EntityAtShift(e, rest, i - |e|);
        }
      }
    }
  }

  // ----- the pager -----

  /** `Math.max(1, Math.ceil(total / limit))` with `limit` = 20. */
  function TotalPages(total: nat): (n: int)
    ensures n >= 1
    ensures total == 0 ==> n == 1
    ensures total > 0 ==> (n - 1) * Requests.PageLimit < total <= n * Requests.PageLimit
  {
    var n := (total + Requests.PageLimit - 1) / Requests.PageLimit;
    if n < 1 then 1 else n
  }

  predicate PrevDisabled(page: int, loading: bool) {
    page <= 0 || loading
  }

  predicate NextDisabled(page: int, total: nat, loading: bool) {
    page >= TotalPages(total) - 1 || loading
  }

  /** The page is one the pager can show for `total` rows. */
  predicate InRange(page: int, total: nat) {
    0 <= page <= TotalPages(total) - 1
  }

  // ----- the credential -----

  /** `els.token.value.trim() || localStorage.getItem('ADMIN_TOKEN') || ''`. */
  function GetToken(input: string, stored: Option<string>): (token: string)
    ensures Text.Trim(input) != "" ==> token == Text.Trim(input)
    ensures Text.Trim(input) == "" && stored.Some? && stored.value != "" ==> token == stored.value
    ensures Text.Trim(input) == "" && (stored.None? || stored.value == "") ==> token == ""
  {
    var typed := Text.Trim(input);
    if typed != "" then typed else if stored.Some? && stored.value != "" then stored.value else ""
  }

  /** The `DELETE /api/pigs/:id?admin_token=…` request, with both credential headers. */
  datatype DeleteRequest = DeleteRequest(id: nat, adminToken: string, xAdminToken: string, authorization: string)

  datatype DeleteOutcome = Deleted | Failed(message: string)

  /** The statistics line: each figure with its `|| 0` default. */
  datatype StatsLine = StatsLine(total: nat, totalLikes: nat, countries: nat)

  function Shown(s: Queries.Stats): StatsLine {
    StatsLine(s.total, s.totalLikes.GetOr(0), s.countries)
  }

  /** The line shows the table's figures, with 0 likes (not SQL's NULL) for an empty table. */
  lemma ShownStats(pigs: seq<Schema.Pig>)
    ensures Shown(Queries.PigStats(pigs)).total == |pigs|
    ensures Shown(Queries.PigStats(pigs)).totalLikes == Queries.SumLikes(pigs)
    ensures Shown(Queries.PigStats(pigs)).countries == |Queries.Locations(pigs)|
  {
  }

  /** The ids of the list's cards, in order. */
  function CardIds(rows: seq<Queries.ListedPig>): (ids: seq<nat>)
    ensures |ids| == |rows|
    ensures forall i :: 0 <= i < |rows| ==> ids[i] == rows[i].pig.id
  {
    seq(|rows|, i requires 0 <= i < |rows| => rows[i].pig.id)
  }

  /** `cardEl.remove()`: the card of that pig goes. */
  function Without(ids: seq<nat>, id: nat): (r: seq<nat>)
    ensures |r| <= |ids|
  {
    if ids == [] then [] else (if ids[0] == id then [] else [ids[0]]) + Without(ids[1..], id)
  }

  /** Exactly the other cards stay. */
  lemma {:induction false} WithoutMembers(ids: seq<nat>, id: nat)
    ensures forall x :: x in Without(ids, id) <==> x in ids && x != id
  {
    if ids != [] {
      WithoutMembers(ids[1..], id);
      assert ids == [ids[0]] + ids[1..];
    }
  }

  const MsgNeedToken: string := "请先设置管理密钥"
  const MsgDeleted: string := "删除成功"
  const MsgDeleteFailed: string := "删除失败："
  const MsgEmptyToken: string := "密钥为空"
  const MsgTokenSaved: string := "密钥已保存"
  const MsgTokenCleared: string := "密钥已清除"

  /** The page's `state` object, the list, the token input, the stored token and the status line. */
  class AdminPage {
    var page: int
    var search: string
    var total: nat
    var loading: bool
    var prevDisabled: bool
    var nextDisabled: bool
    /** The cards of the list; `notice` when it shows the "no data" or the error message instead. */
    var cards: seq<nat>
    var notice: bool
    var statsShown: Option<StatsLine>
    var tokenInput: string
    var storedToken: Option<string>
    var status: string
    var statusError: bool

    /** The page leaves 0 only forwards, and the buttons show the state. */
    ghost predicate Valid()
      reads this
    {
      && 0 <= page
      && prevDisabled == PrevDisabled(page, loading)
      && nextDisabled == NextDisabled(page, total, loading)
    }

    /** `els.list.children.length`. */
    function Children(): nat
      reads this
    {
      |cards| + if notice then 1 else 0
    }

    function Token(): string
      reads this
    {
      GetToken(tokenInput, storedToken)
    }

    /** Page load, before the first `loadStats` and `loadList`. */
    constructor (stored: Option<string>)
      ensures Valid()
      ensures page == 0 && search == "" && total == 0 && !loading
      ensures cards == [] && !notice && storedToken == stored && tokenInput == ""
    {
      page, search, total, loading := 0, "", 0, false;
      prevDisabled, nextDisabled := true, true;
      cards, notice, statsShown := [], false, None;
      tokenInput, storedToken := "", stored;
      status, statusError := "", false;
    }

    /** `updatePager`. */
    method UpdatePager()
      modifies this`prevDisabled, this`nextDisabled
      ensures prevDisabled == PrevDisabled(page, loading)
      ensures nextDisabled == NextDisabled(page, total, loading)
    {
      var totalPages := TotalPages(total);
      prevDisabled := page <= 0 || loading;
      nextDisabled := page >= totalPages - 1 || loading;
    }

    /** The first half of `loadList`: mark loading, disable both buttons, send the query. */
    method BeginLoad() returns (q: Queries.ListQuery)
      requires 0 <= page
      modifies this`loading, this`prevDisabled, this`nextDisabled
      ensures loading && prevDisabled && nextDisabled && Valid()
      ensures q == Requests.ListRequest(page, search)
    {
      loading := true;
      UpdatePager();
      q := Requests.ListRequest(page, search);
    }

    /** The rest of `loadList`: take the page's rows and total, or show the error; loading ends. */
    method FinishLoad(response: Option<Queries.PigPage>)
      requires 0 <= page
      modifies this`total, this`cards, this`notice, this`loading, this`prevDisabled, this`nextDisabled
      ensures response.Some? ==> total == response.value.total && cards == CardIds(response.value.pigs)
      ensures response.Some? ==> notice == (response.value.pigs == [])
      ensures response.None? ==> total == old(total) && cards == [] && notice
      ensures !loading && Valid()
    {
      if response.Some? {
        total := response.value.total;
        cards := CardIds(response.value.pigs);
        notice := response.value.pigs == [];
        UpdatePager();
      } else {
        cards, notice := [], true;
      }
      loading := false;
      UpdatePager();
    }

    /** `loadStats`; a failed request shows the error text instead. */
    method LoadStats(response: Option<Queries.Stats>)
      modifies this`statsShown
      ensures statsShown == if response.Some? then Some(Shown(response.value)) else None
    {
      statsShown := if response.Some? then Some(Shown(response.value)) else None;
    }

    /** The prev button: ignored on the first page or while loading; otherwise one page back. */
    method Prev() returns (q: Option<Queries.ListQuery>)
      requires Valid()
      modifies this`page, this`loading, this`prevDisabled, this`nextDisabled
      ensures old(prevDisabled) ==> q.None? && page == old(page) && loading == old(loading)
      ensures !old(prevDisabled) ==> page == old(page) - 1 && q == Some(Requests.ListRequest(page, search)) && loading
      ensures InRange(old(page), total) ==> InRange(page, total)
      ensures Valid()
    {
      if page <= 0 || loading {
        return None;
      }
      page := page - 1;
      var request := BeginLoad();
      q := Some(request);
    }

    /** The next button: ignored on the last page or while loading; otherwise one page on. */
    method Next() returns (q: Option<Queries.ListQuery>)
      requires Valid()
      modifies this`page, this`loading, this`prevDisabled, this`nextDisabled
      ensures old(nextDisabled) ==> q.None? && page == old(page) && loading == old(loading)
      ensures !old(nextDisabled) ==> page == old(page) + 1 && q == Some(Requests.ListRequest(page, search)) && loading
      ensures !old(nextDisabled) ==> page <= TotalPages(total) - 1
      ensures InRange(old(page), total) ==> InRange(page, total)
      ensures Valid()
    {
      var totalPages := TotalPages(total);
      if page >= totalPages - 1 || loading {
        return None;
      }
      page := page + 1;
      var request := BeginLoad();
      q := Some(request);
    }

    /** The search box, once its 300 ms debounce has fired: the trimmed text, from the first page. */
    method Search(value: string) returns (q: Queries.ListQuery)
      requires Valid()
      modifies this`search, this`page, this`loading, this`prevDisabled, this`nextDisabled
      ensures search == Text.Trim(value) && page == 0 && loading
      ensures q == Requests.ListRequest(0, search)
      ensures Valid()
    {
      search := Text.Trim(value);
      page := 0;
      q := BeginLoad();
    }

    /** The delete button, up to the request: no credential means no request at all. */
    method RequestDelete(id: nat, confirmed: bool) returns (request: Option<DeleteRequest>)
      modifies this`status, this`statusError
      ensures request.Some? <==> Token() != "" && confirmed
      ensures request.Some? ==> request.value == DeleteRequest(id, Token(), Token(), "Bearer " + Token())
      ensures Token() == "" ==> status == MsgNeedToken && statusError
      ensures Token() != "" ==> status == old(status) && statusError == old(statusError)
    {
      var token := GetToken(tokenInput, storedToken);
      if token == "" {
        status, statusError := MsgNeedToken, true;
        return None;
      }
      if !confirmed {
        return None;
      }
      request := Some(DeleteRequest(id, token, token, "Bearer " + token));
    }

    /** After a delete: an emptied list on a later page steps back one page and reloads it. */
    method StepBackIfEmptied() returns (reload: Option<Queries.ListQuery>)
      requires Valid()
      modifies this`page, this`loading, this`prevDisabled, this`nextDisabled
      ensures Children() == 0 && old(page) > 0 ==>
                page == old(page) - 1 && reload == Some(Requests.ListRequest(page, search)) && loading
      ensures !(Children() == 0 && old(page) > 0) ==> page == old(page) && reload.None? && loading == old(loading)
      ensures Valid()
    {
      reload := None;
      if Children() == 0 && page > 0 {
        page := page - 1;
        var q := BeginLoad();
        reload := Some(q);
      }
    }

    /**
     * The delete's response: the card goes and the statistics reload; a page emptied while
     * not on the first page steps back one page and reloads it.
     */
    method DeleteDone(id: nat, outcome: DeleteOutcome, stats: Option<Queries.Stats>)
      returns (reload: Option<Queries.ListQuery>)
      requires Valid()
      modifies this`cards, this`statsShown, this`page, this`loading, this`prevDisabled, this`nextDisabled
      modifies this`status, this`statusError
      ensures outcome.Failed? ==> status == MsgDeleteFailed + outcome.message && statusError
      ensures outcome.Failed? ==> reload.None? && cards == old(cards) && page == old(page)
      ensures outcome.Failed? ==> statsShown == old(statsShown) && loading == old(loading)
      ensures reload.None? ==> loading == old(loading)
      ensures outcome.Deleted? ==> cards == Without(old(cards), id) && status == MsgDeleted && !statusError
      ensures outcome.Deleted? ==> statsShown == if stats.Some? then Some(Shown(stats.value)) else None
      ensures outcome.Deleted? && Children() == 0 && old(page) > 0 ==>
                page == old(page) - 1 && reload == Some(Requests.ListRequest(page, search)) && loading
      ensures !(outcome.Deleted? && Children() == 0 && old(page) > 0) ==> page == old(page) && reload.None?
      ensures Valid()
    {
      if outcome.Failed? {
        status, statusError := MsgDeleteFailed + outcome.message, true;
        return None;
      }
      cards := Without(cards, id);
      LoadStats(stats);
      reload := StepBackIfEmptied();
      status, statusError := MsgDeleted, false;
    }

    /** The save button: a blank input is refused, anything else is stored trimmed. */
    method SaveToken()
      modifies this`storedToken, this`status, this`statusError
      ensures Text.Trim(tokenInput) == "" ==> storedToken == old(storedToken) && status == MsgEmptyToken && statusError
      ensures Text.Trim(tokenInput) != "" ==>
                storedToken == Some(Text.Trim(tokenInput)) && status == MsgTokenSaved && !statusError
    {
      var v := Text.Trim(tokenInput);
      if v == "" {
        status, statusError := MsgEmptyToken, true;
        assert tokenInput == old(tokenInput);
      } else {
        storedToken := Some(v);
        status, statusError := MsgTokenSaved, false;
        assert tokenInput == old(tokenInput);
      }
    }

    /** The clear button: both the stored token and the input go, so deleting is refused. */
    method ClearToken()
      modifies this`storedToken, this`tokenInput, this`status, this`statusError
      ensures storedToken.None? && tokenInput == "" && status == MsgTokenCleared && !statusError
      ensures Token() == ""
    {
      storedToken := None;
      tokenInput := "";
      status, statusError := MsgTokenCleared, false;
    }
  }
}
