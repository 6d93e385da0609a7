/**
 * The gallery page: the infinite-scroll listing state (the loaded rows, the next page
 * to ask for, the `loading` and `hasMore` flags, the keyword), the like buttons with
 * their record of already-liked pigs, and the relative-time labels. `loadPigs` is
 * split into the request it sends and the handling of the response.
 */
module Gallery {
  import opened Wrappers
  import Text
  import Numbers
  import Queries
  import Requests

  /** `formatTime`'s buckets; `Calendar` is the locale date string, which is not modelled. */
  datatype Ago = JustNow | MinutesAgo(minutes: nat) | HoursAgo(hours: nat) | DaysAgo(days: nat) | Calendar

  const MinuteMs: int := 60000
  const HourMs: int := 3600000
  const DayMs: int := 86400000

  /**
   * `formatTime` for a timestamp `diff` milliseconds in the past, with `Math.floor`
   * division; a timestamp in the future (negative `diff`) reads as just now.
   */
  function FormatTime(diff: int): (a: Ago)
    ensures a == JustNow <==> diff < MinuteMs
    ensures a.MinutesAgo? <==> MinuteMs <= diff < HourMs
    ensures a.HoursAgo? <==> HourMs <= diff < DayMs
    ensures a.DaysAgo? <==> DayMs <= diff < 7 * DayMs
    ensures a == Calendar <==> 7 * DayMs <= diff
    ensures a.MinutesAgo? ==> 1 <= a.minutes < 60 && a.minutes * MinuteMs <= diff < (a.minutes + 1) * MinuteMs
    ensures a.HoursAgo? ==> 1 <= a.hours < 24 && a.hours * HourMs <= diff < (a.hours + 1) * HourMs
    ensures a.DaysAgo? ==> 1 <= a.days < 7 && a.days * DayMs <= diff < (a.days + 1) * DayMs
  {
    var minutes := diff / MinuteMs;
    var hours := diff / HourMs;
    var days := diff / DayMs;
    if minutes < 1 then JustNow
    else if minutes < 60 then MinutesAgo(minutes)
    else if hours < 24 then HoursAgo(hours)
    else if days < 7 then DaysAgo(days)
    else Calendar
  }

  /**
   * The label text; `date` stands for `toLocaleDateString('zh-CN')`. The count of a
   * relative label reads back through `parseInt`; "just now" holds no number.
   */
  function Label(a: Ago, date: string): (r: string)
    ensures a.JustNow? ==> Numbers.ParseInt(r) == None
    ensures a.MinutesAgo? ==> Numbers.ParseInt(r) == Some(a.minutes)
    ensures a.HoursAgo? ==> Numbers.ParseInt(r) == Some(a.hours)
    ensures a.DaysAgo? ==> Numbers.ParseInt(r) == Some(a.days)
  {
    match a
    case JustNow =>
      assert Numbers.Digits("刚刚") == [];
      "刚刚"
    case MinutesAgo(n) => Numbers.ParseDecimalThen(n, "分钟前"); Numbers.Decimal(n) + "分钟前"
    case HoursAgo(n) => Numbers.ParseDecimalThen(n, "小时前"); Numbers.Decimal(n) + "小时前"
    case DaysAgo(n) => Numbers.ParseDecimalThen(n, "天前"); Numbers.Decimal(n) + "天前"
    case Calendar => date
  }

  /** The character before the final `前` (or the last one of `刚刚`): it names the bucket. */
  function UnitMark(a: Ago): char {
    match a
    case JustNow => '刚'
    case MinutesAgo(_) => '钟'
    case HoursAgo(_) => '时'
    case DaysAgo(_) => '天'
    case Calendar => ' '
  }

  lemma LabelMark(a: Ago, date: string)
    requires !a.Calendar?
    ensures |Label(a, date)| >= 2 && Label(a, date)[|Label(a, date)| - 2] == UnitMark(a)
  {
  }

  lemma MarksDiffer(a: Ago, b: Ago)
    requires !a.Calendar? && !b.Calendar? && Rank(a) != Rank(b)
    ensures UnitMark(a) != UnitMark(b)
  {
  }

  /** Two different relative readings never show the same text. */
  lemma LabelsDiffer(a: Ago, b: Ago, date: string)
    requires !a.Calendar? && !b.Calendar? && a != b
    ensures Label(a, date) != Label(b, date)
  {
    if Rank(a) != Rank(b) {
      LabelMark(a, date);
      LabelMark(b, date);
      MarksDiffer(a, b);
    } else {
      assert Numbers.ParseInt(Label(a, date)) != Numbers.ParseInt(Label(b, date));
    }
  }

  /** A later reading never shows a more recent bucket. */
  function Rank(a: Ago): nat {
    match a
    case JustNow => 0
    case MinutesAgo(_) => 1
    case HoursAgo(_) => 2
    case DaysAgo(_) => 3
    case Calendar => 4
  }

  lemma FormatTimeMonotone(d1: int, d2: int)
    requires d1 <= d2
    ensures Rank(FormatTime(d1)) <= Rank(FormatTime(d2))
    ensures FormatTime(d1).MinutesAgo? && FormatTime(d2).MinutesAgo? ==>
              FormatTime(d1).minutes <= FormatTime(d2).minutes
  {
    var a, b := FormatTime(d1), FormatTime(d2);
    if a.MinutesAgo? && b.MinutesAgo? {
      assert a.minutes * MinuteMs <= d2 < (b.minutes + 1) * MinuteMs;
    }
  }

  /** The row shows `likes` likes. */
  function Liked(row: Queries.ListedPig, likes: nat): Queries.ListedPig {
    row.(pig := row.pig.(likes := likes))
  }

  /** Row `i` is the first with that id: the one `pigs.find` returns. */
  predicate FirstWith(rows: seq<Queries.ListedPig>, id: nat, i: int) {
    0 <= i < |rows| && rows[i].pig.id == id && forall j :: 0 <= j < i ==> rows[j].pig.id != id
  }

  /** `pigs.find(p => p.id === pigId).likes = data.likes`. */
  function SetLikes(rows: seq<Queries.ListedPig>, id: nat, likes: nat): (r: seq<Queries.ListedPig>)
    ensures |r| == |rows|
  {
    if rows == [] then []
    else if rows[0].pig.id == id then [Liked(rows[0], likes)] + rows[1..]
    else [rows[0]] + SetLikes(rows[1..], id, likes)
  }

  /** Only the first row with that id changes, and it takes the server's count; no other row moves. */
  lemma {:induction false} SetLikesFirst(rows: seq<Queries.ListedPig>, id: nat, likes: nat)
    ensures forall i :: 0 <= i < |rows| ==>
              SetLikes(rows, id, likes)[i] == if FirstWith(rows, id, i) then Liked(rows[i], likes) else rows[i]
  {
    if rows != [] {
      var r := SetLikes(rows, id, likes);
      if rows[0].pig.id == id {
        forall i | 1 <= i < |rows| ensures !FirstWith(rows, id, i) {
        }
      } else {
        SetLikesFirst(rows[1..], id, likes);
        forall i | 1 <= i < |rows|
          ensures r[i] == if FirstWith(rows, id, i) then Liked(rows[i], likes) else rows[i]
        {
          assert rows[1..][i - 1] == rows[i];
          if FirstWith(rows[1..], id, i - 1) {
            forall j | 0 <= j < i ensures rows[j].pig.id != id {
              if j > 0 {
                assert rows[1..][j - 1] == rows[j];
              }
            }
          } else if FirstWith(rows, id, i) {
            forall j | 0 <= j < i - 1 ensures rows[1..][j].pig.id != id {
              assert rows[1..][j] == rows[j + 1];
            }
          }
        }
      }
    }
  }

  predicate NoDuplicates(ids: seq<nat>) {
    forall i, j :: 0 <= i < j < |ids| ==> ids[i] != ids[j]
  }

  /** The module-level variables of the gallery page. */
  class Feed {
    var pigs: seq<Queries.ListedPig>
    var currentPage: nat
    var loading: bool
    var hasMore: bool
    var currentSearch: string
    /** `localStorage.likedPigs`. */
    var likedPigs: seq<nat>

    /** Every loaded page held at least one row, and a pig is recorded as liked at most once. */
    ghost predicate Valid()
      reads this
    {
      && currentPage <= |pigs|
      && NoDuplicates(likedPigs)
      && Text.Trimmed(currentSearch)
    }

    /** Page load, before the first `loadPigs`. */
    constructor (liked: seq<nat>)
      requires NoDuplicates(liked)
      ensures Valid()
      ensures pigs == [] && currentPage == 0 && !loading && hasMore && currentSearch == ""
      ensures likedPigs == liked
    {
      pigs, currentPage, loading, hasMore, currentSearch := [], 0, false, true, "";
      likedPigs := liked;
    }

    /** The first half of `loadPigs`: nothing while a load is running or after the last page. */
    method StartLoad() returns (q: Option<Queries.ListQuery>)
      modifies this`loading
      ensures old(loading) || !hasMore ==> q.None? && loading == old(loading)
      ensures !old(loading) && hasMore ==> loading && q == Some(Requests.ListRequest(currentPage, currentSearch))
    {
      if loading || !hasMore {
        return None;
      }
      loading := true;
      q := Some(Requests.ListRequest(currentPage, currentSearch));
    }

    /**
     * The rest of `loadPigs`: an empty page ends the list; a non-empty page is appended and
     * the page counter moves on, and a short page also ends the list. A failed request
     * changes nothing but the flag.
     */
    method FinishLoad(response: Option<Queries.PigPage>)
      requires Valid()
      modifies this`pigs, this`currentPage, this`hasMore, this`loading
      ensures !loading && Valid()
      ensures response.None? ==> pigs == old(pigs) && currentPage == old(currentPage) && hasMore == old(hasMore)
      ensures response.Some? && response.value.pigs == [] ==>
                pigs == old(pigs) && currentPage == old(currentPage) && !hasMore
      ensures response.Some? && response.value.pigs != [] ==>
                && pigs == old(pigs) + response.value.pigs
                && currentPage == old(currentPage) + 1
                && hasMore == (old(hasMore) && |response.value.pigs| >= Requests.PageLimit)
    {
      if response.Some? {
        var rows := response.value.pigs;
        if rows == [] {
          hasMore := false;
        } else {
          pigs := pigs + rows;
          currentPage := currentPage + 1;
          if |rows| < Requests.PageLimit {
            hasMore := false;
          }
        }
      }
      loading := false;
    }

    /** `resetPigList`: forget the rows and start over from the first page. */
    method ResetPigList() returns (q: Option<Queries.ListQuery>)
      requires Valid()
      modifies this`pigs, this`currentPage, this`hasMore, this`loading
      ensures pigs == [] && currentPage == 0 && hasMore && Valid()
      ensures old(loading) ==> q.None? && loading
      ensures !old(loading) ==> loading && q == Some(Requests.ListRequest(0, currentSearch))
    {
      pigs := [];
      currentPage := 0;
      hasMore := true;
      q := StartLoad();
    }

    /** The list restarts for a new, already trimmed keyword. */
    method StartSearch(keyword: string) returns (q: Option<Queries.ListQuery>)
      requires Valid() && Text.Trimmed(keyword)
      modifies this`currentSearch, this`pigs, this`currentPage, this`hasMore, this`loading
      ensures currentSearch == keyword && pigs == [] && currentPage == 0 && hasMore && loading
      ensures old(loading) ==> q.None?
      ensures !old(loading) ==> q == Some(Requests.ListRequest(0, keyword))
      ensures Valid()
    {
      currentSearch := keyword;
      q := ResetPigList();
    }

    /** The search button: a blank keyword does nothing; otherwise the list restarts for it. */
    method PerformSearch(input: string) returns (q: Option<Queries.ListQuery>)
      requires Valid()
      modifies this`currentSearch, this`pigs, this`currentPage, this`hasMore, this`loading
      ensures Text.Trim(input) == "" ==>
                q.None? && pigs == old(pigs) && currentPage == old(currentPage) && hasMore == old(hasMore)
                && loading == old(loading) && currentSearch == old(currentSearch)
      ensures Text.Trim(input) != "" ==>
                currentSearch == Text.Trim(input) && pigs == [] && currentPage == 0 && hasMore && loading
                && (old(loading) ==> q.None?)
                && (!old(loading) ==> q == Some(Requests.ListRequest(0, currentSearch)))
      ensures Valid()
    {
      var keyword := Text.Trim(input);
      if keyword == "" {
        q := None;
      } else {
        Text.TrimTrimmed(input);
        q := StartSearch(keyword);
      }
    }

    /** The clear button: back to the unfiltered list. */
    method ClearSearch() returns (q: Option<Queries.ListQuery>)
      requires Valid()
      modifies this`currentSearch, this`pigs, this`currentPage, this`hasMore, this`loading
      ensures currentSearch == "" && pigs == [] && currentPage == 0 && hasMore && loading
      ensures old(loading) ==> q.None?
      ensures !old(loading) ==> q == Some(Requests.ListRequest(0, ""))
      ensures Valid()
    {
      currentSearch := "";
      q := ResetPigList();
    }

    /**
     * The first half of `likePig`: the liked list is read at the click; a pig already in
     * it sends nothing, any other pig sends the POST and keeps that copy for the response.
     */
    method SendLike(id: nat) returns (copy: Option<seq<nat>>)
      ensures copy.None? <==> id in likedPigs
      ensures copy.Some? ==> copy.value == likedPigs
    {
      if id in likedPigs {
        return None;
      }
      copy := Some(likedPigs);
    }

    /**
     * The rest of `likePig`: a like the server accepts writes back the copy read at the
     * click with the id added, whatever was recorded in between, and the pig's row shows
     * the server's count. A failed like changes nothing.
     */
    method LikeDone(id: nat, copy: seq<nat>, response: Option<nat>)
      requires Valid() && NoDuplicates(copy) && id !in copy
      modifies this`likedPigs, this`pigs
      ensures response.None? ==> likedPigs == old(likedPigs) && pigs == old(pigs)
      ensures response.Some? ==> likedPigs == copy + [id] && pigs == SetLikes(old(pigs), id, response.value)
      ensures Valid()
    {
      if response.Some? {
        likedPigs := copy + [id];
        pigs := SetLikes(pigs, id, response.value);
      }
    }

    /**
     * Two pigs liked before either answer arrives: a second click on the first pig sends a
     * second POST, and the later answer writes back a list without the first pig.
     */
    method LikesInFlight(a: nat, b: nat, likesA: nat, likesB: nat) returns (resent: bool)
      requires Valid() && a != b && a !in likedPigs && b !in likedPigs
      modifies this`likedPigs, this`pigs
      ensures resent
      ensures likedPigs == old(likedPigs) + [b]
      ensures a !in likedPigs
    {
      var first := SendLike(a);
      var again := SendLike(a);
      resent := again.Some?;
      var other := SendLike(b);
      LikeDone(a, first.value, Some(likesA));
      LikeDone(b, other.value, Some(likesB));
    }
  }
}
