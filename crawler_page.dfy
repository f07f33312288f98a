/** The crawler page's logic (static/js/crawler.js): the daily update time
    shown as HH:MM and read back from the time input, the episode selection
    and the batch form it fills, the status labels, the pagination window
    and the order of a task's results.

    The DOM, the fetch calls and the toasts are not modelled. Episode ids
    of the selection are the episode numbers the checkboxes carry. */
module CrawlerPage {
  import opened Strings
  import opened Sorting

  /** JavaScript's % for a positive divisor: the remainder takes the sign of
      the dividend. */
  function JsRem(a: int, b: int): (r: int)
    requires b > 0
    ensures a >= 0 ==> r == a % b
    ensures -b < r < b
  {
    if a >= 0 then a % b else -((-a) % b)
  }

  /** n.toString().padStart(2, '0'). */
  function Pad2(n: int): string {
    PadStart(IntToString(n), 2, '0')
  }

  /** daily_update_time_format: Math.floor(t / 3600) hours and
      Math.floor((t % 3600) / 60) minutes, each padded to two digits. */
  function DailyTimeFormat(t: int): string {
    var hours := t / 3600;
    var minutes := JsRem(t, 3600) / 60;
    Pad2(hours) + ":" + Pad2(minutes)
  }

  /** Number(part) for the parts of a time input: "" is 0, a digit run is
      its value, anything else is NaN (None). */
  function JsNumber(part: string): (r: Option<nat>)
    ensures AllDigits(part) ==> r.Some?
  {
    if part == "" then Some(0) else ParseNat(part)
  }

  /** handleCreateTask's encoding of a time input "HH:MM": hours * 3600 +
      minutes * 60, NaN (None) when a part is missing or not a number. */
  function DailyTimeEncode(input: string): Option<int> {
    var parts := Split(input, ":");
    var hours := JsNumber(parts[0]);
    var minutes := if |parts| > 1 then JsNumber(parts[1]) else None;
    if hours.Some? && minutes.Some? then Some(hours.value * 3600 + minutes.value * 60) else None
  }

  /** Two-digit padding of 0..99 is a digit run that reads back as the
      number. */
  lemma Pad2Reads(n: int)
    requires 0 <= n <= 99
    ensures |Pad2(n)| == 2 && AllDigits(Pad2(n)) && ParseNat(Pad2(n)) == Some(n)
  {
    var s := NatToString(n);
    assert IntToString(n) == s;
    ParseNatToString(n);
    if n < 10 {
      DigitsValueLeadingZeros(1, s);
    } else {
      assert n / 10 < 10;
      assert |s| == 2;
    }
  }

  /** A digit run holds no pattern that starts with a non-digit. */
  lemma DigitsAvoid(s: string, p: string)
    requires AllDigits(s) && |p| > 0 && !IsDigit(p[0])
    ensures !Contains(s, p)
  {
    NotContainsFirstChar(s, p);
  }

  /** Splitting "HH:MM" made of two digit runs gives them back. */
  lemma SplitTime(hh: string, mm: string)
    requires AllDigits(hh) && AllDigits(mm)
    ensures Split(hh + ":" + mm, ":") == [hh, mm]
  {
    var s := hh + ":" + mm;
    assert s[|hh|..|hh| + 1] == ":";
    IndexOfLeftmost(s, ":", |hh|);
    var k := IndexOf(s, ":").value;
    assert s[k..k + 1] == ":" && s[k] == ':';
    assert forall i :: 0 <= i < |hh| ==> s[i] == hh[i] && s[i] != ':';
    assert k == |hh|;
    SplitCons(s, ":", |hh|);
    assert s[..|hh|] == hh;
    assert s[|hh| + 1..] == mm;
    DigitsAvoid(mm, ":");
  }

  /** A time of 0..99 hours shows as HH:MM and reads back as the same
      number of seconds less its odd seconds: formatting and the time
      input's encoding round-trip on whole minutes. */
  lemma DailyTimeRoundTrip(t: int)
    requires 0 <= t < 100 * 3600
    ensures DailyTimeEncode(DailyTimeFormat(t)).Some? && DailyTimeEncode(DailyTimeFormat(t)).value == t - t % 60
  {
    var h, m := TimeParts(t);
    EncodePadded(h, m);
  }

  /** The hours and minutes a time of 0..99 hours shows. */
  lemma TimeParts(t: int) returns (h: nat, m: nat)
    requires 0 <= t < 100 * 3600
    ensures h <= 99 && m <= 59
    ensures DailyTimeFormat(t) == Pad2(h) + ":" + Pad2(m)
    ensures h * 3600 + m * 60 == t - t % 60
  {
    h, m := t / 3600, t % 3600 / 60;
    WholeMinutes(t);
  }

  /** The time input reads "HH:MM" back as h hours and m minutes. */
  lemma EncodePadded(h: int, m: int)
    requires 0 <= h <= 99 && 0 <= m <= 99
    ensures DailyTimeEncode(Pad2(h) + ":" + Pad2(m)).Some?
    ensures DailyTimeEncode(Pad2(h) + ":" + Pad2(m)).value == h * 3600 + m * 60
  {
    Pad2Reads(h);
    Pad2Reads(m);
    EncodeDigits(Pad2(h), Pad2(m), h, m);
  }

  /** The time input reads two digit runs around ':' as hours and minutes. */
  lemma EncodeDigits(hh: string, mm: string, h: nat, m: nat)
    requires AllDigits(hh) && AllDigits(mm) && ParseNat(hh) == Some(h) && ParseNat(mm) == Some(m)
    ensures DailyTimeEncode(hh + ":" + mm).Some? && DailyTimeEncode(hh + ":" + mm).value == h * 3600 + m * 60
  {
    SplitTime(hh, mm);
    var parts := Split(hh + ":" + mm, ":");
    assert parts[0] == hh && |parts| > 1 && parts[1] == mm;
    assert JsNumber(parts[0]) == Some(h) && JsNumber(parts[1]) == Some(m);
  }

  lemma WholeMinutes(t: int)
    requires 0 <= t < 100 * 3600
    ensures JsRem(t, 3600) == t % 3600
    ensures 0 <= t / 3600 <= 99 && 0 <= t % 3600 / 60 <= 59
    ensures t / 3600 * 3600 + t % 3600 / 60 * 60 == t - t % 60
  {
  }

  /** The index of the first occurrence (indexOf). */
  function FirstIndex(s: seq<int>, x: int): (i: nat)
    requires x in s
    ensures i < |s| && s[i] == x && forall j :: 0 <= j < i ==> s[j] != x
  {
    if s[0] == x then 0 else FirstIndex(s[1..], x) + 1
  }

  /** splice(indexOf(x), 1). */
  function RemoveFirst(s: seq<int>, x: int): (r: seq<int>)
    requires x in s
    ensures |r| == |s| - 1
    ensures multiset(r) == multiset(s) - multiset{x}
  {
    var i := FirstIndex(s, x);
    assert s == s[..i] + [s[i]] + s[i + 1..];
    s[..i] + s[i + 1..]
  }

  predicate Distinct(s: seq<int>) {
    forall i, j :: 0 <= i < j < |s| ==> s[i] != s[j]
  }

  /** Selecting and then unselecting an episode restores the selection. */
  lemma ToggleTwice(s: seq<int>, x: int)
    requires x !in s
    ensures RemoveFirst(s + [x], x) == s
  {
    assert FirstIndex(s + [x], x) == |s|;
    assert (s + [x])[..|s|] == s;
  }

  /** The batch form: its first and last episodes and whether the last one
      can be edited. */
  datatype BatchForm = BatchForm(start: int, end: int, endDisabled: bool)

  /** The selection of episodes in the detail dialog and the batch button. */
  class EpisodeSelection {
    var selected: seq<int>
    var batchDisabled: bool

    constructor ()
      ensures selected == [] && batchDisabled
    {
      selected := [];
      batchDisabled := true;
    }

    /** toggleEpisodeSelection: an absent episode is appended, a present
        one is removed at its first occurrence; the batch button is
        disabled iff nothing is selected. A selection without duplicates
        keeps none, and the episode is selected afterwards iff it was not
        before. */
    method Toggle(episode: int)
      modifies this
      ensures episode !in old(selected) ==> selected == old(selected) + [episode]
      ensures episode in old(selected) ==> selected == RemoveFirst(old(selected), episode)
      ensures batchDisabled <==> selected == []
      ensures Distinct(old(selected)) ==> Distinct(selected) && (episode in selected <==> episode !in old(selected))
    {
      if episode !in selected {
        selected := selected + [episode];
      } else {
        var s := selected;
        var i := FirstIndex(s, episode);
        selected := s[..i] + s[i + 1..];
        if Distinct(s) {
          assert forall k :: 0 <= k < |selected| ==> selected[k] == if k < i then s[k] else s[k + 1];
        }
      }
      batchDisabled := |selected| == 0;
    }

    /** selectAllEpisodes: the selection becomes the checkboxes' episodes in
        page order. */
    method SelectAll(checkboxes: seq<int>)
      modifies this
      ensures selected == checkboxes
      ensures batchDisabled <==> checkboxes == []
    {
      selected := [];
      var i := 0;
      while i < |checkboxes|
        invariant 0 <= i <= |checkboxes|
        invariant selected == checkboxes[..i]
      {
        selected := selected + [checkboxes[i]];
        i := i + 1;
      }
      batchDisabled := |selected| == 0;
    }

    /** deselectAllEpisodes: nothing selected, the button disabled. */
    method DeselectAll()
      modifies this
      ensures selected == [] && batchDisabled
    {
      selected := [];
      batchDisabled := true;
    }

    /** batchCreateTask: nothing happens without a selection; otherwise the
        form gets the smallest and the largest selected episode (the first
        and last of the numeric sort), and the end field is disabled iff
        one episode is selected. */
    method BatchCreateTask() returns (form: Option<BatchForm>)
      ensures selected == [] <==> form.None?
      ensures form.Some? ==>
                form.value.start in selected && form.value.end in selected &&
                (forall x :: x in selected ==> form.value.start <= x <= form.value.end) &&
                (form.value.endDisabled <==> |selected| == 1)
    {
      if |selected| == 0 {
        return None;
      }
      var sorted := SortBy(selected, NumericLe);
      NumericLeTotal();
      SortByCorrect(selected, NumericLe);
      assert forall x :: x in selected <==> x in multiset(sorted);
      forall x | x in selected
        ensures sorted[0] <= x <= sorted[|sorted| - 1]
      {
        assert x in multiset(sorted);
        var k :| 0 <= k < |sorted| && sorted[k] == x;
        assert k == 0 || NumericLe(sorted[0], sorted[k]);
        assert k == |sorted| - 1 || NumericLe(sorted[k], sorted[|sorted| - 1]);
      }
      assert sorted[0] in multiset(sorted) && sorted[|sorted| - 1] in multiset(sorted);
      form := Some(BatchForm(sorted[0], sorted[|sorted| - 1], |sorted| == 1));
    }
  }

  /** The comparator (a, b) => a - b. */
  function NumericLe(a: int, b: int): bool {
    a <= b
  }

  lemma NumericLeTotal()
    ensures TotalPreorder(NumericLe)
  {
  }

  /** getStatusText: the six known statuses get their labels, anything else
      is shown as it is. */
  function StatusText(status: string): (r: string)
    ensures status !in KnownStatuses ==> r == status
  {
    match status
    case "pending" => "待处理"
    case "running" => "进行中"
    case "partial" => "部分完成"
    case "completed" => "已完成"
    case "failed" => "失败"
    case "terminated" => "异常终止"
    case _ => status
  }

  const KnownStatuses := {"pending", "running", "partial", "completed", "failed", "terminated"}

  /** Different known statuses get different labels, and no label is an
      untranslated status name. */
  lemma StatusTextDistinct(a: string, b: string)
    requires a in KnownStatuses && b in KnownStatuses && a != b
    ensures StatusText(a) != StatusText(b)
    ensures StatusText(a) !in KnownStatuses
  {
  }

  /** The pagination bar. */
  datatype Pagination = Pagination(prevDisabled: bool, prevTarget: Option<int>, pages: seq<int>,
                                   nextDisabled: bool, nextTarget: Option<int>)

  /** renderPagination: previous (disabled on page 1, leading to the page
      before when there is one), the pages max(1, current - 2) to
      min(total, start + 4), and next (disabled on the last page, leading to
      the page after when there is one). At most five pages are shown, all
      within 1..total, in order, and the current one among them; five are
      shown whenever there are at least five pages and the current one is
      not among the last two. */
  method RenderPagination(current: int, total: int) returns (p: Pagination)
    ensures p.prevDisabled <==> current == 1
    ensures p.prevTarget == if current > 1 then Some(current - 1) else None
    ensures p.nextDisabled <==> current == total
    ensures p.nextTarget == if current < total then Some(current + 1) else None
    ensures |p.pages| <= 5
    ensures forall i :: 0 <= i < |p.pages| ==> 1 <= p.pages[i] <= total && p.pages[i] == p.pages[0] + i
    ensures 1 <= current <= total ==> current in p.pages
    ensures var s := if current - 2 > 1 then current - 2 else 1;
            var e := if total < s + 4 then total else s + 4;
            |p.pages| == (if e >= s then e - s + 1 else 0) && (p.pages != [] ==> p.pages[0] == s)
    ensures total >= 5 && 1 <= current <= total - 2 ==> |p.pages| == 5
  {
    var startPage := if current - 2 > 1 then current - 2 else 1;
    var endPage := if total < startPage + 4 then total else startPage + 4;
    var pages := [];
    var i := startPage;
    while i <= endPage
      invariant startPage <= i && (i <= endPage + 1 || i == startPage)
      invariant |pages| == i - startPage
      invariant forall k :: 0 <= k < |pages| ==> pages[k] == startPage + k
    {
      pages := pages + [i];
      i := i + 1;
    }
    if 1 <= current <= total {
      assert pages[current - startPage] == current;
    }
    p := Pagination(current == 1, if current > 1 then Some(current - 1) else None, pages,
                    current == total, if current < total then Some(current + 1) else None);
  }

  /** A task result row as the results list receives it. */
  datatype TaskResult = TaskResult(episodeNumber: string, status: string)

  /** The longest run of decimal digits at the start. */
  function DigitRun(s: string): (r: string)
    ensures |r| <= |s| && r == s[..|r|] && AllDigits(r)
    ensures |r| < |s| ==> !IsDigit(s[|r|])
  {
    if |s| == 0 || !IsDigit(s[0]) then ""
    else
      var rest := DigitRun(s[1..]);
      assert s[1..][..|rest|] == s[1..|rest| + 1];
      [s[0]] + rest
  }

  /** A digit run is its own leading run. */
  lemma DigitRunOfDigits(s: string)
    ensures AllDigits(s) ==> DigitRun(s) == s
  {
  }

  /** parseInt on the digits it reads (NaN is None). */
  function ParseIntPrefix(s: string): (r: Option<nat>)
    ensures AllDigits(s) && s != "" ==> r == ParseNat(s)
  {
    var d := DigitRun(s);
    DigitRunOfDigits(s);
    if d == "" then None else Some(DigitsValue(d))
  }

  /** The shown episode number: the first "ep" removed. */
  function ShownEpisode(r: TaskResult): string {
    ReplaceFirst(r.episodeNumber, "ep", "")
  }

  /** The sort key of a result. */
  function Key(r: TaskResult): Option<nat> {
    ParseIntPrefix(ShownEpisode(r))
  }

  /** The results order: ascending by key, NaN keys first. */
  function KeyLe(a: TaskResult, b: TaskResult): bool {
    Key(a).None? || (Key(b).Some? && Key(a).value <= Key(b).value)
  }

  lemma KeyLeTotal()
    ensures TotalPreorder(KeyLe)
  {
  }

  /** renderTaskResults' order: the results rearranged by episode number. */
  function SortResults(results: seq<TaskResult>): (r: seq<TaskResult>)
    ensures multiset(r) == multiset(results)
    ensures forall i, j :: 0 <= i < j < |r| && Key(r[i]).Some? && Key(r[j]).Some? ==> Key(r[i]).value <= Key(r[j]).value
  {
    KeyLeTotal();
    SortByCorrect(results, KeyLe);
    SortBy(results, KeyLe)
  }

  /** A digit run is shown as it is and sorted by its value. */
  lemma KeyOfDigits(s: string, status: string)
    requires AllDigits(s) && s != ""
    ensures ShownEpisode(TaskResult(s, status)) == s
    ensures Key(TaskResult(s, status)) == ParseNat(s)
  {
    DigitsAvoid(s, "ep");
  }

  /** A stored episode number n, plain or as "ep" + n, is shown as n and
      has the key n. */
  lemma KeyOfEpisode(n: nat, status: string)
    ensures Key(TaskResult(NatToString(n), status)) == Some(n)
    ensures ShownEpisode(TaskResult("ep" + NatToString(n), status)) == NatToString(n)
    ensures Key(TaskResult("ep" + NatToString(n), status)) == Some(n)
  {
    var s := NatToString(n);
    ParseNatToString(n);
    KeyOfDigits(s, status);
    var t := "ep" + s;
    assert StartsWith(t, "ep") by { assert t[..2] == "ep"; }
    assert t[2..] == s;
  }
}
