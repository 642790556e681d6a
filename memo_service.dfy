/** The memo service: the stored list of memos with add, update and delete
    by id, search, the most recent memos, and the title a new memo gets from
    its content. The list that the service reads from and writes back to
    browser storage as a whole is the field `memos`; a read that fails leaves
    it empty. Time stamps are milliseconds since the epoch. */
module MemoService {
  import opened Text
  import opened Calendar
  import opened Store
  import opened Collections

  // ---------------------------------------------------------------------------
  // Selections and orders used with the stored list

  function HasMemoId(id: string): VoiceMemo -> bool { (m: VoiceMemo) => m.id == id }

  function OtherMemoId(id: string): VoiceMemo -> bool { (m: VoiceMemo) => m.id != id }

  /** The search condition, for a query that is already lower-cased. */
  predicate MatchesQuery(q: string, m: VoiceMemo) {
    Contains(Lower(m.title), q) || Contains(Lower(m.content), q)
  }

  function Matching(q: string): VoiceMemo -> bool { (m: VoiceMemo) => MatchesQuery(q, m) }

  /** The ascending sort key for `(a, b) => b.createdAt - a.createdAt`. */
  function Age(m: VoiceMemo): int { -m.createdAt }

  /** Newest first: `createdAt` never increases along the list. */
  predicate NewestFirst(s: seq<VoiceMemo>) {
    forall i, j :: 0 <= i < j < |s| ==> s[i].createdAt >= s[j].createdAt
  }

  /** The end index `slice(0, count)` uses on a list of length n. */
  function SliceEnd(count: int, n: nat): (e: nat)
    ensures e <= n
  {
    if count < 0 then (if n + count < 0 then 0 else n + count)
    else if count < n then count else n
  }

  /** The first n memos of `a` are newest first. */
  ghost predicate NewestFirstUpTo(a: array<VoiceMemo>, n: int)
    reads a
  {
    forall p, q :: 0 <= p < q < n && q < a.Length ==> a[p].createdAt >= a[q].createdAt
  }

  /** Sorts `a` in place, newest first, by insertion with adjacent swaps. */
  method SortNewestFirst(a: array<VoiceMemo>)
    modifies a
    ensures NewestFirst(a[..])
    ensures multiset(a[..]) == multiset(old(a[..]))
  {
    var i := 0;
    while i < a.Length
      invariant 0 <= i <= a.Length
      invariant NewestFirstUpTo(a, i)
      invariant multiset(a[..]) == multiset(old(a[..]))
    {
      SinkNewer(a, i);
      i := i + 1;
    }
  }

  /** Moves `a[i]` left past the older memos before it, so that the first
      i + 1 memos are newest first; a memo of equal age is not passed, so
      equal ages keep their order. */
  method SinkNewer(a: array<VoiceMemo>, i: nat)
    requires i < a.Length
    requires NewestFirstUpTo(a, i)
    modifies a
    ensures NewestFirstUpTo(a, i + 1)
    ensures multiset(a[..]) == multiset(old(a[..]))
  {
    var j := i;
    while j > 0 && a[j - 1].createdAt < a[j].createdAt
      invariant 0 <= j <= i
      invariant Sinking(a[..], j, i)
      invariant multiset(a[..]) == multiset(old(a[..]))
    {
      ghost var before := a[..];
      SwapAdjacent(a, j);
      SinkStep(before, j, i);
      j := j - 1;
    }
    SinkDone(a[..], j, i);
  }

  /** Exchanges `a[j - 1]` and `a[j]`. */
  method SwapAdjacent(a: array<VoiceMemo>, j: int)
    requires 0 < j < a.Length
    modifies a
    ensures a[..] == old(a[..])[j - 1 := old(a[j])][j := old(a[j - 1])]
    ensures multiset(a[..]) == multiset(old(a[..]))
  {
    a[j - 1], a[j] := a[j], a[j - 1];
  }

  /** Halfway through `SinkNewer`: the memo moving left sits at j and is newer
      than every memo it has passed, and the other memos up to i are newest
      first. */
  ghost predicate Sinking(s: seq<VoiceMemo>, j: int, i: int) {
    && 0 <= j <= i < |s|
    && (forall p, q :: 0 <= p < q <= i && p != j && q != j ==> s[p].createdAt >= s[q].createdAt)
    && (forall q :: j < q <= i ==> s[q].createdAt < s[j].createdAt)
  }

  /** Swapping the moving memo with an older one before it keeps `Sinking`. */
  lemma SinkStep(s: seq<VoiceMemo>, j: int, i: int)
    requires Sinking(s, j, i) && 0 < j && s[j - 1].createdAt < s[j].createdAt
    ensures Sinking(s[j - 1 := s[j]][j := s[j - 1]], j - 1, i)
  {
  }

  /** Once the memo before it is not older, the first i + 1 memos are newest first. */
  lemma SinkDone(s: seq<VoiceMemo>, j: int, i: int)
    requires Sinking(s, j, i) && (j == 0 || s[j - 1].createdAt >= s[j].createdAt)
    ensures forall p, q :: 0 <= p < q <= i ==> s[p].createdAt >= s[q].createdAt
  {
  }

  /** The first e memos of a newest-first list are newest first, and no memo
      after them is newer than any of them. */
  lemma NewestPrefix(s: seq<VoiceMemo>, e: nat)
    requires NewestFirst(s) && e <= |s|
    ensures NewestFirst(s[..e])
    ensures multiset(s[..e]) <= multiset(s)
    ensures forall i, m :: 0 <= i < e && m in multiset(s) - multiset(s[..e]) ==>
      m.createdAt <= s[..e][i].createdAt
  {
    var r := s[..e];
    assert s == r + s[e..];
    assert multiset(s) - multiset(r) == multiset(s[e..]);
    forall i, m | 0 <= i < e && m in multiset(s) - multiset(r)
      ensures m.createdAt <= r[i].createdAt
    {
      assert m in s[e..];
      var k :| e <= k < |s| && s[k] == m;
      assert r[i] == s[i];
    }
  }

  /** `searchMemos(query)` over the stored list: exactly the memos whose lower-cased title or
      content contains the lower-cased query, newest first. */
  function SearchMemos(memos: seq<VoiceMemo>, query: string): (r: seq<VoiceMemo>)
    ensures NewestFirst(r)
    ensures multiset(r) == multiset(Filter(memos, Matching(Lower(query))))
    ensures multiset(r) <= multiset(memos)
    ensures forall i :: 0 <= i < |r| ==> r[i] in memos && MatchesQuery(Lower(query), r[i])
    ensures forall j :: 0 <= j < |memos| && MatchesQuery(Lower(query), memos[j]) ==> memos[j] in r
  {
    var f := Filter(memos, Matching(Lower(query)));
    FilterSubMultiset(memos, Matching(Lower(query)));
    var r := SortBy(f, Age);
    PermutedFilter(r, memos, Matching(Lower(query)));
    AscendingAgeIsNewestFirst(r);
    r
  }

  /** Ascending `Age` is newest first. */
  lemma AscendingAgeIsNewestFirst(s: seq<VoiceMemo>)
    requires SortedBy(s, Age)
    ensures NewestFirst(s)
  {
    forall i, j | 0 <= i < j < |s| ensures s[i].createdAt >= s[j].createdAt {
      assert Age(s[i]) <= Age(s[j]);
    }
  }

  /** What `getRecentMemos(count)` may return for the list `memos`: as many
      memos as `slice(0, count)` keeps, newest first, drawn from the list, and
      no memo left out newer than one returned. */
  predicate IsRecent(r: seq<VoiceMemo>, memos: seq<VoiceMemo>, count: int) {
    && |r| == SliceEnd(count, |memos|)
    && NewestFirst(r)
    && multiset(r) <= multiset(memos)
    && (forall i, m :: 0 <= i < |r| && m in multiset(memos) - multiset(r) ==>
          m.createdAt <= r[i].createdAt)
  }

  // ---------------------------------------------------------------------------
  // The stored list

  class MemoStore {
    var memos: seq<VoiceMemo>

    /** The list as read from empty storage. */
    constructor ()
      ensures memos == []
    {
      memos := [];
    }

    /** `addMemo`: the new memo goes after all stored ones. */
    method AddMemo(draft: MemoDraft, id: string, createdAt: int) returns (created: VoiceMemo)
      modifies this
      ensures created.id == id && created.createdAt == createdAt
      ensures created.title == draft.title && created.content == draft.content
      ensures created.audioUrl == draft.audioUrl
      ensures memos == old(memos) + [created]
    {
      created := NewMemo(draft, id, createdAt);
      memos := memos + [created];
    }

    /** `updateMemo`: the first memo with the id gets the given fields;
        `None` (null) and no write when there is none. */
    method UpdateMemo(id: string, updates: MemoChanges) returns (r: Option<VoiceMemo>)
      modifies this
      ensures r.None? <==> forall j :: 0 <= j < |old(memos)| ==> old(memos)[j].id != id
      ensures r.None? ==> memos == old(memos)
      ensures r.Some? ==>
        exists i :: 0 <= i < |old(memos)| && old(memos)[i].id == id &&
          (forall j :: 0 <= j < i ==> old(memos)[j].id != id) &&
          r.value == MergeMemo(old(memos)[i], updates) &&
          memos == old(memos)[i := r.value]
    {
      var index := FindIndex(memos, HasMemoId(id));
      if index.None? {
        return None;
      }
      var i := index.value;
      var updated := MergeMemo(memos[i], updates);
      memos := memos[i := updated];
      r := Some(updated);
    }

    /** `deleteMemo`: every memo with the id goes, the others keep their
        order; false, and no write, when no memo has the id. */
    method DeleteMemo(id: string) returns (deleted: bool)
      modifies this
      ensures deleted <==> exists j :: 0 <= j < |old(memos)| && old(memos)[j].id == id
      ensures memos == if deleted then Filter(old(memos), OtherMemoId(id)) else old(memos)
    {
      var filtered := Filter(memos, OtherMemoId(id));
      FilterKeepsAll(memos, OtherMemoId(id));
      if |filtered| == |memos| {
        return false;
      }
      memos := filtered;
      return true;
    }

    /** `getRecentMemos(count)`: the loaded list is sorted newest first in
        place and its first `count` memos are returned. They are the newest:
        no memo left out is newer than one returned. */
    method GetRecentMemos(count: int) returns (r: seq<VoiceMemo>)
      ensures IsRecent(r, memos, count)
    {
      var loaded := memos;
      var a := new VoiceMemo[|loaded|](k requires 0 <= k < |loaded| => loaded[k]);
      assert a[..] == loaded;
      SortNewestFirst(a);
      var e := SliceEnd(count, a.Length);
      r := a[..e];
      NewestPrefix(a[..], e);
    }
  }

  // ---------------------------------------------------------------------------
  // Titles

  /** `content.trim().split(/\s+/).slice(0, 5)`: the first five words. */
  function FirstWords(content: string): (ws: seq<string>)
    ensures |ws| <= 5
  {
    var all := Words(Trim(content));
    if |all| <= 5 then all else all[..5]
  }

  /** The placeholder title `메모 M/D H:MM` of the local time `nowMs`: month,
      day and hour without padding, the minutes on two digits. */
  function Placeholder(nowMs: int): (t: string)
    ensures t != [] && |t| <= 14
    ensures |t| >= 3 && t[..3] == "메모 "
  {
    var c := CivilFromDays(DayOf(nowMs));
    var hours := (nowMs % MsPerDay) / 3600000;
    var minutes := (nowMs % 3600000) / 60000;
    var rest := NatToString(c.month) + "/" + NatToString(c.day) + " " +
      NatToString(hours) + ":" + Pad2(minutes);
    assert ("메모 " + rest)[..3] == "메모 ";
    "메모 " + rest
  }

  /** What `generateMemoTitle(content)` returns at the instant `nowMs`. */
  function MemoTitle(content: string, nowMs: int): string {
    var joined := Join(FirstWords(content), " ");
    var title := if |joined| > 30 then joined[..27] + "..." else joined;
    if title == "" then Placeholder(nowMs) else title
  }

  /** `generateMemoTitle`: join the first five words, cut a long result to 27
      characters and "...", and fall back to the placeholder. */
  method GenerateMemoTitle(content: string, nowMs: int) returns (title: string)
    ensures title == MemoTitle(content, nowMs)
    ensures title != [] && |title| <= 30
  {
    var words := FirstWords(content);
    title := Join(words, " ");
    if |title| > 30 {
      title := title[..27] + "...";
    }
    if title == "" {
      title := Placeholder(nowMs);
    }
    MemoTitleBounds(content, nowMs);
  }

  /** A title is never empty and never longer than 30 characters. */
  lemma MemoTitleBounds(content: string, nowMs: int)
    ensures MemoTitle(content, nowMs) != []
    ensures |MemoTitle(content, nowMs)| <= 30
  {
  }

  /** Content with some non-space character has a non-empty join; white
      space alone gives the placeholder. */
  lemma {:induction false} JoinEmptyIff(content: string, nowMs: int)
    ensures Join(FirstWords(content), " ") == [] <==> AllSpace(content)
    ensures AllSpace(content) ==> MemoTitle(content, nowMs) == Placeholder(nowMs)
  {
    var t := Trim(content);
    WordsEmptyIff(t);
    assert AllSpace(t) <==> AllSpace(content);
    var ws := FirstWords(content);
    if ws != [] {
      assert ws[0] in Words(t);
      JoinWordsNonEmpty(ws, " ");
    }
  }

  /** A join of at most 30 characters is the title as it is, and it splits
      back into the (at most five) first words of the content. */
  lemma ShortTitleIsWords(content: string, nowMs: int)
    requires !AllSpace(content)
    requires |Join(FirstWords(content), " ")| <= 30
    ensures MemoTitle(content, nowMs) == Join(FirstWords(content), " ")
    ensures Words(MemoTitle(content, nowMs)) == FirstWords(content)
    ensures |Words(MemoTitle(content, nowMs))| <= 5
  {
    JoinEmptyIff(content, nowMs);
    var ws := FirstWords(content);
    forall w | w in ws ensures IsWord(w) {
      assert w in Words(Trim(content));
    }
    WordsOfJoin(ws);
  }

  /** A longer join is cut to its first 27 characters and "...": exactly 30. */
  lemma LongTitleIsCut(content: string, nowMs: int)
    requires |Join(FirstWords(content), " ")| > 30
    ensures |MemoTitle(content, nowMs)| == 30
    ensures MemoTitle(content, nowMs) == Join(FirstWords(content), " ")[..27] + "..."
  {
  }
}
