/** The chat pane of a lead: the message list kept in step with the
    `messages` table, the `@` mention pop-up driven by the cursor, the
    mention splice, the mention extraction of a sent message, and the
    optimistic send with its rollback. Reads, inserts, the realtime
    channel, the clock and `crypto.randomUUID` are inputs. */
module MessageModal {
  import opened Wrappers
  import opened Entities
  import Text
  import Lists
  import MentionList

  // ---------------------------------------------------------------------
  // The mention pop-up

  /** `handleInputChange`: the text between the last `@` at or before the
      cursor and the cursor, when that `@` lies before the cursor. */
  function MentionWindow(value: string, cursor: int): Option<string> {
    var at := Text.LastIndexOfFrom(value, '@', cursor);
    if at != -1 && at < cursor then Some(Text.Slice(value, at + 1, cursor)) else None
  }

  /** For a cursor inside the text, the pop-up opens exactly when the
      character under the cursor is not an `@` and an `@` lies before the
      cursor; the search text is what follows the last such `@` up to the
      cursor, and holds no `@` of its own. */
  lemma MentionWindowExactly(value: string, cursor: nat)
    requires cursor <= |value|
    ensures MentionWindow(value, cursor).Some? <==>
      (cursor == |value| || value[cursor] != '@') && exists i :: 0 <= i < cursor && value[i] == '@'
    ensures MentionWindow(value, cursor).Some? ==>
      var at := Text.LastIndexOfFrom(value, '@', cursor);
      && 0 <= at < cursor && value[at] == '@'
      && MentionWindow(value, cursor).value == value[at + 1..cursor]
      && '@' !in MentionWindow(value, cursor).value
  {
    var at := Text.LastIndexOfFrom(value, '@', cursor);
    MentionOpens(value, cursor);
    if 0 <= at < cursor {
      WindowHasNoAt(value, cursor, at);
    }
  }

  /** The last `@` at or before the cursor lies before it exactly when the
      character under the cursor is not an `@` and some `@` precedes the
      cursor. */
  lemma MentionOpens(value: string, cursor: nat)
    requires cursor <= |value|
    ensures var at := Text.LastIndexOfFrom(value, '@', cursor);
      at != -1 && at < cursor <==>
      (cursor == |value| || value[cursor] != '@') && exists i :: 0 <= i < cursor && value[i] == '@'
  {
    var at := Text.LastIndexOfFrom(value, '@', cursor);
    if at != -1 && at < cursor {
      assert value[at] == '@';
    }
    if (cursor == |value| || value[cursor] != '@') && exists i :: 0 <= i < cursor && value[i] == '@' {
      var i :| 0 <= i < cursor && value[i] == '@';
      assert at >= i;
    }
  }

  /** The text between that `@` and the cursor holds no `@`. */
  lemma WindowHasNoAt(value: string, cursor: nat, at: int)
    requires cursor <= |value| && at == Text.LastIndexOfFrom(value, '@', cursor) && 0 <= at < cursor
    ensures Text.Slice(value, at + 1, cursor) == value[at + 1..cursor]
    ensures '@' !in value[at + 1..cursor]
  {
    var w := value[at + 1..cursor];
    forall k | 0 <= k < |w| ensures w[k] != '@' {
      assert w[k] == value[at + 1 + k];
    }
  }

  /** An `@` right under the cursor hides the pop-up, even when an earlier
      `@` is being completed: `lastIndexOf('@', cursor)` can return the
      cursor itself. */
  lemma AtUnderCursorHides()
    ensures MentionWindow("@a@", 2) == None
    ensures MentionWindow("@a", 2) == Some("a")
  {
    assert Text.LastIndexOfFrom("@a@", '@', 2) == 2;
    assert Text.LastIndexBelow("@a", '@', 2) == 0;
    assert Text.Slice("@a", 1, 2) == "@a"[1..2] == "a";
  }

  // ---------------------------------------------------------------------
  // Splicing the chosen profile into the text

  /** `handleMentionSelect` as written: the text before the LAST `@` of
      the whole message, the mention, a space, then the text from the
      cursor. */
  function SpliceMentionAsWritten(message: string, cursor: int, email: string): string {
    Text.Slice(message, 0, Text.LastIndexOf(message, '@')) + "@" + email + " " + Text.SliceFrom(message, cursor)
  }

  /** An `@` after the cursor makes the as-written splice repeat the text
      between the cursor and that `@`: completing `@a` at the start of
      `@a b@c` duplicates ` b`. */
  lemma SpliceAsWrittenDuplicates()
    ensures MentionWindow("@a b@c", 2) == Some("a")
    ensures SpliceMentionAsWritten("@a b@c", 2, "ann@x.io") == "@a b@ann@x.io  b@c"
    ensures SpliceMention("@a b@c", 2, "ann@x.io") == "@ann@x.io  b@c"
  {
    var s := "@a b@c";
    assert Text.LastIndexBelow(s, '@', 3) == 0;
    assert Text.Slice(s, 1, 2) == s[1..2] == "a";
    assert Text.LastIndexBelow(s, '@', 6) == 4;
    assert Text.Slice(s, 0, 4) == s[..4];
    assert Text.SliceFrom(s, 2) == s[2..];
    assert Text.Slice(s, 0, 0) == "";
  }

  /** The splice the pop-up evidently means: the `@` it was opened from
      (the last one at or before the cursor) and the search text after it
      are replaced by the mention and a space. */
  function SpliceMention(message: string, cursor: int, email: string): string {
    Text.Slice(message, 0, Text.LastIndexOfFrom(message, '@', cursor)) + "@" + email + " " + Text.SliceFrom(message, cursor)
  }

  /** While the pop-up is open, the splice keeps the text before the `@`
      and the text from the cursor on, and puts `@email ` in place of the
      search text. */
  lemma SpliceReplacesWindow(message: string, cursor: nat, email: string)
    requires cursor <= |message| && MentionWindow(message, cursor).Some?
    ensures var at := Text.LastIndexOfFrom(message, '@', cursor);
      && message == message[..at] + "@" + MentionWindow(message, cursor).value + message[cursor..]
      && SpliceMention(message, cursor, email) == message[..at] + "@" + email + " " + message[cursor..]
  {
    var at := Text.LastIndexOfFrom(message, '@', cursor);
    MentionWindowExactly(message, cursor);
    if at == 0 {
      assert Text.Slice(message, 0, at) == message[..at];
    }
    assert Text.SliceFrom(message, cursor) == message[cursor..];
    assert message == message[..at] + [message[at]] + message[at + 1..cursor] + message[cursor..];
  }

  // ---------------------------------------------------------------------
  // extractMentions: /@([a-zA-Z0-9._-]+@[a-zA-Z0-9._-]+\.[a-zA-Z0-9_-]+)/g

  /** `[a-zA-Z0-9._-]`. */
  predicate IsAddressChar(c: char) {
    Text.IsAsciiUpper(c) || Text.IsAsciiLower(c) || Text.IsDigit(c) || c == '.' || c == '_' || c == '-'
  }

  /** `[a-zA-Z0-9_-]`: an address character other than a dot. */
  predicate IsTldChar(c: char) {
    IsAddressChar(c) && c != '.'
  }

  /** The end of the longest run of address characters from `k`. */
  function AddressRunEnd(s: string, k: nat): (e: nat)
    requires k <= |s|
    ensures k <= e <= |s|
    ensures forall i :: k <= i < e ==> IsAddressChar(s[i])
    ensures e < |s| ==> !IsAddressChar(s[e])
    decreases |s| - k
  {
    if k < |s| && IsAddressChar(s[k]) then AddressRunEnd(s, k + 1) else k
  }

  /** The end of the longest run of top-level-domain characters from `k`. */
  function TldRunEnd(s: string, k: nat): (e: nat)
    requires k <= |s|
    ensures k <= e <= |s|
    ensures forall i :: k <= i < e ==> IsTldChar(s[i])
    ensures e < |s| ==> !IsTldChar(s[e])
    decreases |s| - k
  {
    if k < |s| && IsTldChar(s[k]) then TldRunEnd(s, k + 1) else k
  }

  /** A dot followed by a top-level-domain character. */
  predicate IsDomainDot(s: string, d: int) {
    0 <= d && d + 1 < |s| && s[d] == '.' && IsTldChar(s[d + 1])
  }

  /** The last domain dot in `[lo, hi)`, or -1: the greedy domain part
      backs off to it. */
  function LastDomainDot(s: string, lo: nat, hi: nat): (d: int)
    requires lo <= hi <= |s|
    ensures d == -1 || (lo <= d < hi && IsDomainDot(s, d))
    ensures forall i :: lo <= i < hi && d < i ==> !IsDomainDot(s, i)
    decreases hi - lo
  {
    if hi == lo then -1
    else if IsDomainDot(s, hi - 1) then hi - 1
    else LastDomainDot(s, lo, hi - 1)
  }

  /** A match of the pattern: `@` at `start`, the second `@` at `at`, the
      last dot of the domain at `dot`, and the end of the top-level domain. */
  datatype Found = Found(start: nat, at: nat, dot: nat, end: nat)

  /** The shape of a match of the pattern in `s`. */
  predicate IsMatch(s: string, f: Found) {
    && f.start + 1 < f.at && f.at + 1 < f.dot && f.dot + 1 < f.end <= |s|
    && s[f.start] == '@' && s[f.at] == '@' && s[f.dot] == '.'
    && (forall i :: f.start < i < f.at ==> IsAddressChar(s[i]))
    && (forall i :: f.at < i < f.dot ==> IsAddressChar(s[i]))
    && (forall i :: f.dot < i < f.end ==> IsTldChar(s[i]))
  }

  /** The pattern tried at position `i`, with the regular expression's
      greedy, backtracking reading. */
  function MatchAt(s: string, i: nat): (r: Option<Found>)
    requires i < |s|
    ensures r.Some? ==> r.value.start == i && IsMatch(s, r.value)
  {
    if s[i] != '@' then None
    else
      var at := AddressRunEnd(s, i + 1);
      if at == i + 1 || at == |s| || s[at] != '@' then None
      else DomainMatch(s, i, at)
  }

  /** The rest of the pattern once `@local@` spans `i .. at`: the domain,
      backing off to its last dot, and the top-level domain. */
  function DomainMatch(s: string, i: nat, at: nat): (r: Option<Found>)
    requires i + 1 < at < |s| && s[i] == '@' && s[at] == '@'
    requires forall k :: i < k < at ==> IsAddressChar(s[k])
    ensures r.Some? ==> r.value.start == i && IsMatch(s, r.value)
  {
    var runEnd := AddressRunEnd(s, at + 1);
    if runEnd < at + 2 then None
    else
      var dot := LastDomainDot(s, at + 2, runEnd);
      if dot == -1 then None
      else Some(Found(i, at, dot, TldRunEnd(s, dot + 1)))
  }

  /** The global search from position `i`: each match is taken whole and
      the search resumes after it. */
  function SearchFrom(s: string, i: nat): seq<Found>
    requires i <= |s|
    decreases |s| - i
  {
    if i == |s| then []
    else match MatchAt(s, i)
      case Some(f) => [f] + SearchFrom(s, f.end)
      case None => SearchFrom(s, i + 1)
  }

  /** The matches the search finds from `i` are matches that start at or
      after `i`, in order and without overlap. */
  function MatchesFrom(s: string, i: nat): (r: seq<Found>)
    requires i <= |s|
    ensures forall k :: 0 <= k < |r| ==> IsMatch(s, r[k]) && i <= r[k].start
    ensures forall k :: 0 <= k < |r| - 1 ==> r[k].end <= r[k + 1].start
  {
    SearchShape(s, i);
    SearchFrom(s, i)
  }

  lemma {:induction false} SearchShape(s: string, i: nat)
    requires i <= |s|
    ensures Shaped(s, i, SearchFrom(s, i))
    decreases |s| - i
  {
    if i < |s| {
      match MatchAt(s, i)
      case Some(f) =>
        SearchShape(s, f.end);
        ShapedCons(s, i, f, SearchFrom(s, f.end));
      case None =>
        SearchShape(s, i + 1);
        ShapedLater(s, i, SearchFrom(s, i + 1));
    }
  }

  lemma ShapedLater(s: string, i: nat, r: seq<Found>)
    requires Shaped(s, i + 1, r)
    ensures Shaped(s, i, r)
  {
  }

  /** Matches that start at or after `i`, in order and without overlap. */
  predicate Shaped(s: string, i: nat, r: seq<Found>) {
    && (forall k :: 0 <= k < |r| ==> IsMatch(s, r[k]) && i <= r[k].start)
    && (forall k :: 0 <= k < |r| - 1 ==> r[k].end <= r[k + 1].start)
  }

  lemma ShapedCons(s: string, i: nat, f: Found, rest: seq<Found>)
    requires IsMatch(s, f) && i <= f.start && Shaped(s, f.end, rest)
    ensures Shaped(s, i, [f] + rest)
  {
    var r := [f] + rest;
    forall k | 0 < k < |r|
      ensures r[k] == rest[k - 1]
    {
    }
  }

  /** `extractMentions`: each match without its leading `@`. */
  function ExtractMentions(content: string): seq<string> {
    Blocks(content, MatchesFrom(content, 0))
  }

  /** Each match's block of `content`, without its leading `@`. */
  function Blocks(content: string, found: seq<Found>): (r: seq<string>)
    requires forall k :: 0 <= k < |found| ==> found[k].start < found[k].end <= |content|
    ensures |r| == |found|
    ensures forall k :: 0 <= k < |r| ==> r[k] == content[found[k].start + 1..found[k].end]
  {
    seq(|found|, k requires 0 <= k < |found| => content[found[k].start + 1..found[k].end])
  }

  /** A mention: `local@domain.tld` over the pattern's characters. */
  predicate IsMention(m: string) {
    exists a, d | 0 <= a < |m| && 0 <= d < |m| :: IsMentionSplit(m, a, d)
  }

  predicate IsMentionSplit(m: string, a: int, d: int) {
    && 0 < a && a + 1 < d && d + 1 < |m|
    && m[a] == '@' && m[d] == '.'
    && (forall i :: 0 <= i < a ==> IsAddressChar(m[i]))
    && (forall i :: a < i < d ==> IsAddressChar(m[i]))
    && (forall i :: d < i < |m| ==> IsTldChar(m[i]))
  }

  /** Every extracted mention has the shape `local@domain.tld`, and the
      mentions are `@`-prefixed blocks of the content that do not overlap
      and come in order of appearance. */
  lemma ExtractedMentionsShape(content: string)
    ensures var found := MatchesFrom(content, 0);
      && |ExtractMentions(content)| == |found|
      && (forall k :: 0 <= k < |found| ==>
            IsMention(ExtractMentions(content)[k])
            && Text.OccursAt(content, "@" + ExtractMentions(content)[k], found[k].start))
      && (forall k :: 0 <= k < |found| - 1 ==> found[k].end <= found[k + 1].start)
  {
    var found := MatchesFrom(content, 0);
    var ms := ExtractMentions(content);
    forall k | 0 <= k < |found|
      ensures IsMention(ms[k]) && Text.OccursAt(content, "@" + ms[k], found[k].start)
    {
      MatchIsMention(content, found[k]);
    }
  }

  /** What a match spans, less its leading `@`, is a mention. */
  lemma MatchIsMention(s: string, f: Found)
    requires IsMatch(s, f)
    ensures IsMention(s[f.start + 1..f.end])
    ensures Text.OccursAt(s, "@" + s[f.start + 1..f.end], f.start)
  {
    var m := s[f.start + 1..f.end];
    assert forall i :: 0 <= i < |m| ==> m[i] == s[f.start + 1 + i];
    assert IsMentionSplit(m, f.at - f.start - 1, f.dot - f.start - 1);
    assert "@" + m == s[f.start..f.end];
  }

  /** A match found in `t` moved `n` characters to the right. */
  function Shift(f: Found, n: nat): Found {
    Found(n + f.start, n + f.at, n + f.dot, n + f.end)
  }

  /** `t` is the text of `s` from position `n` on. */
  predicate SuffixAt(s: string, t: string, n: nat) {
    n + |t| == |s| && forall i {:trigger t[i]} :: 0 <= i < |t| ==> s[n + i] == t[i]
  }

  lemma {:induction false} AddressRunEndSuffix(s: string, t: string, n: nat, j: nat)
    requires SuffixAt(s, t, n) && j <= |t|
    ensures AddressRunEnd(s, n + j) == n + AddressRunEnd(t, j)
    decreases |t| - j
  {
    if j < |t| && IsAddressChar(t[j]) {
      AddressRunEndSuffix(s, t, n, j + 1);
    }
  }

  lemma {:induction false} TldRunEndSuffix(s: string, t: string, n: nat, j: nat)
    requires SuffixAt(s, t, n) && j <= |t|
    ensures TldRunEnd(s, n + j) == n + TldRunEnd(t, j)
    decreases |t| - j
  {
    if j < |t| && IsTldChar(t[j]) {
      TldRunEndSuffix(s, t, n, j + 1);
    }
  }

  lemma {:induction false} LastDomainDotSuffix(s: string, t: string, n: nat, lo: nat, hi: nat)
    requires SuffixAt(s, t, n) && lo <= hi <= |t|
    ensures var d := LastDomainDot(t, lo, hi);
      LastDomainDot(s, n + lo, n + hi) == if d == -1 then -1 else n + d
    decreases hi - lo
  {
    if hi > lo {
      assert IsDomainDot(s, n + hi - 1) == IsDomainDot(t, hi - 1);
      LastDomainDotSuffix(s, t, n, lo, hi - 1);
    }
  }

  function ShiftOption(r: Option<Found>, n: nat): Option<Found> {
    match r
    case None => None
    case Some(f) => Some(Shift(f, n))
  }

  /** Whether the pattern matches at a position depends only on the text
      from that position on. */
  lemma MatchAtSuffix(s: string, t: string, n: nat, j: nat)
    requires SuffixAt(s, t, n) && j < |t|
    ensures MatchAt(s, n + j) == ShiftOption(MatchAt(t, j), n)
  {
    if t[j] == '@' {
      AddressRunEndSuffix(s, t, n, j + 1);
      assert n + (j + 1) == n + j + 1;
      var at := AddressRunEnd(t, j + 1);
      if at != j + 1 && at < |t| && t[at] == '@' {
        DomainMatchSuffix(s, t, n, j, at);
      } else if at < |t| {
        assert s[n + at] == t[at];
      }
    }
  }

  lemma DomainMatchSuffix(s: string, t: string, n: nat, i: nat, at: nat)
    requires SuffixAt(s, t, n)
    requires i + 1 < at < |t| && t[i] == '@' && t[at] == '@'
    requires forall k :: i < k < at ==> IsAddressChar(t[k])
    ensures forall k :: n + i < k < n + at ==> IsAddressChar(s[k])
    ensures DomainMatch(s, n + i, n + at) == ShiftOption(DomainMatch(t, i, at), n)
  {
    ShiftedAddressChars(s, t, n, i, at);
    AddressRunEndSuffix(s, t, n, at + 1);
    assert n + (at + 1) == n + at + 1;
    var runEnd := AddressRunEnd(t, at + 1);
    var d := if runEnd < at + 2 then -1 else LastDomainDot(t, at + 2, runEnd);
    var e := if d == -1 then 0 else TldRunEnd(t, d + 1);
    if runEnd >= at + 2 {
      DomainPartsSuffix(s, t, n, at, runEnd);
    }
    DomainMatchIs(t, i, at, runEnd, d, e);
    DomainMatchMoved(s, n, i, at, runEnd, d, e);
  }

  /** The domain part found in the longer text, from where its run of
      address characters ends, where its last dot is and where its
      top-level domain ends, each moved along. */
  lemma DomainMatchMoved(s: string, n: nat, i: nat, at: nat, runEnd: nat, d: int, e: nat)
    requires i + 1 < at && n + at < |s| && s[n + i] == '@' && s[n + at] == '@'
    requires forall k :: n + i < k < n + at ==> IsAddressChar(s[k])
    requires AddressRunEnd(s, n + at + 1) == n + runEnd && d >= -1
    requires runEnd < at + 2 ==> d == -1
    requires runEnd >= at + 2 ==>
      && LastDomainDot(s, n + at + 2, n + runEnd) == (if d == -1 then -1 else n + d)
      && (d != -1 ==> TldRunEnd(s, n + d + 1) == n + e)
    ensures DomainMatch(s, n + i, n + at) == ShiftOption(DomainOf(i, at, d, e), n)
  {
    DomainMatchIs(s, n + i, n + at, n + runEnd, if d == -1 then -1 else n + d, n + e);
    DomainOfShift(n, i, at, d, e);
  }

  /** A domain part given by its second `@`, its last dot (-1 for none) and
      the end of its top-level domain. */
  function DomainOf(i: nat, at: nat, d: int, e: nat): Option<Found> {
    if d < 0 then None else Some(Found(i, at, d, e))
  }

  lemma DomainOfShift(n: nat, i: nat, at: nat, d: int, e: nat)
    requires d >= -1
    ensures DomainOf(n + i, n + at, if d == -1 then -1 else n + d, n + e) == ShiftOption(DomainOf(i, at, d, e), n)
  {
  }

  /** The domain part of the pattern in terms of where the domain's address
      characters end, where its last dot is (-1 for none) and where its
      top-level domain ends. */
  lemma DomainMatchIs(s: string, i: nat, at: nat, runEnd: nat, d: int, e: nat)
    requires i + 1 < at < |s| && s[i] == '@' && s[at] == '@'
    requires forall k :: i < k < at ==> IsAddressChar(s[k])
    requires runEnd == AddressRunEnd(s, at + 1)
    requires runEnd < at + 2 ==> d == -1
    requires runEnd >= at + 2 ==> d == LastDomainDot(s, at + 2, runEnd) && (d != -1 ==> e == TldRunEnd(s, d + 1))
    ensures DomainMatch(s, i, at) == DomainOf(i, at, d, e)
  {
  }

  lemma ShiftedAddressChars(s: string, t: string, n: nat, i: nat, at: nat)
    requires SuffixAt(s, t, n)
    requires i + 1 < at < |t| && t[i] == '@' && t[at] == '@'
    requires forall k :: i < k < at ==> IsAddressChar(t[k])
    ensures s[n + i] == '@' && s[n + at] == '@'
    ensures forall k :: n + i < k < n + at ==> IsAddressChar(s[k])
  {
    forall k | n + i < k < n + at
      ensures IsAddressChar(s[k])
    {
      assert s[k] == t[k - n];
    }
    assert s[n + i] == t[i] && s[n + at] == t[at];
  }

  lemma DomainPartsSuffix(s: string, t: string, n: nat, at: nat, hi: nat)
    requires SuffixAt(s, t, n) && at + 2 <= hi <= |t|
    ensures var d := LastDomainDot(t, at + 2, hi);
      && LastDomainDot(s, n + at + 2, n + hi) == (if d == -1 then -1 else n + d)
      && (d != -1 ==> TldRunEnd(s, n + d + 1) == n + TldRunEnd(t, d + 1))
  {
    LastDomainDotSuffix(s, t, n, at + 2, hi);
    assert n + (at + 2) == n + at + 2;
    var dot := LastDomainDot(t, at + 2, hi);
    if dot != -1 {
      TldRunEndSuffix(s, t, n, dot + 1);
      assert n + (dot + 1) == n + dot + 1;
    }
  }

  /** `a` is `b` with every match moved `n` characters along. */
  predicate ShiftedBy(a: seq<Found>, b: seq<Found>, n: nat) {
    |a| == |b| && forall k :: 0 <= k < |a| ==> a[k] == Shift(b[k], n)
  }

  /** The global search over a text with anything in front of it finds
      the matches of the text itself, moved along. */
  lemma {:induction false} SearchShifted(s: string, t: string, n: nat, j: nat)
    requires SuffixAt(s, t, n) && j <= |t|
    ensures ShiftedBy(SearchFrom(s, n + j), SearchFrom(t, j), n)
    decreases |t| - j, 1
  {
    if j < |t| {
      var r := MatchAt(t, j);
      if r.Some? {
        MatchedShifted(s, t, n, j, r.value);
      } else {
        UnmatchedStep(s, t, n, j);
      }
    }
  }

  lemma {:induction false} MatchedShifted(s: string, t: string, n: nat, j: nat, f: Found)
    requires SuffixAt(s, t, n) && j < |t| && MatchAt(t, j) == Some(f)
    ensures ShiftedBy(SearchFrom(s, n + j), SearchFrom(t, j), n)
    decreases |t| - j, 0
  {
    SearchShifted(s, t, n, f.end);
    MatchedStep(s, t, n, j, f);
  }

  /** One step of the search when the pattern matches at `j`. */
  lemma MatchedStep(s: string, t: string, n: nat, j: nat, f: Found)
    requires SuffixAt(s, t, n) && j < |t| && MatchAt(t, j) == Some(f)
    requires ShiftedBy(SearchFrom(s, n + f.end), SearchFrom(t, f.end), n)
    ensures ShiftedBy(SearchFrom(s, n + j), SearchFrom(t, j), n)
  {
    MatchAtSuffix(s, t, n, j);
    ShiftedCons(f, SearchFrom(s, n + f.end), SearchFrom(t, f.end), n);
  }

  lemma ShiftedCons(f: Found, a: seq<Found>, b: seq<Found>, n: nat)
    requires ShiftedBy(a, b, n)
    ensures ShiftedBy([Shift(f, n)] + a, [f] + b, n)
  {
    assert forall k :: 0 < k <= |a| ==> ([Shift(f, n)] + a)[k] == a[k - 1] && ([f] + b)[k] == b[k - 1];
  }

  /** One step of the search when the pattern does not match at `j`. */
  lemma {:induction false} UnmatchedStep(s: string, t: string, n: nat, j: nat)
    requires SuffixAt(s, t, n) && j < |t| && MatchAt(t, j).None?
    ensures ShiftedBy(SearchFrom(s, n + j), SearchFrom(t, j), n)
    decreases |t| - j, 0
  {
    SearchShifted(s, t, n, j + 1);
    MatchAtSuffix(s, t, n, j);
  }

  /** No `@` in `s[i..j]`. */
  predicate NoAtBetween(s: string, i: nat, j: nat)
    requires i <= j <= |s|
    decreases j - i
  {
    i == j || (s[i] != '@' && NoAtBetween(s, i + 1, j))
  }

  lemma {:induction false} NoAtBetweenIs(s: string, i: nat, j: nat)
    requires i <= j <= |s|
    requires forall k :: i <= k < j ==> s[k] != '@'
    ensures NoAtBetween(s, i, j)
    decreases j - i
  {
    if i < j {
      NoAtBetweenIs(s, i + 1, j);
    }
  }

  /** No match starts before the first `@`. */
  lemma {:induction false} MatchesSkipNoAt(s: string, i: nat, j: nat)
    requires i <= j <= |s| && NoAtBetween(s, i, j)
    ensures SearchFrom(s, i) == SearchFrom(s, j)
    decreases j - i
  {
    if i < j {
      MatchesSkipNoAt(s, i + 1, j);
      SkipNoMatch(s, i);
    }
  }

  lemma SkipNoMatch(s: string, i: nat)
    requires i < |s| && s[i] != '@'
    ensures SearchFrom(s, i) == SearchFrom(s, i + 1)
  {
  }

  lemma {:induction false} AddressRunEndIs(s: string, k: nat, e: nat)
    requires k <= e <= |s|
    requires forall i :: k <= i < e ==> IsAddressChar(s[i])
    requires e == |s| || !IsAddressChar(s[e])
    ensures AddressRunEnd(s, k) == e
    decreases e - k
  {
    if k < e {
      AddressRunEndIs(s, k + 1, e);
    }
  }

  lemma {:induction false} TldRunEndIs(s: string, k: nat, e: nat)
    requires k <= e <= |s|
    requires forall i :: k <= i < e ==> IsTldChar(s[i])
    requires e == |s| || !IsTldChar(s[e])
    ensures TldRunEnd(s, k) == e
    decreases e - k
  {
    if k < e {
      TldRunEndIs(s, k + 1, e);
    }
  }

  lemma {:induction false} LastDomainDotIs(s: string, lo: nat, d: nat, hi: nat)
    requires lo <= d < hi <= |s| && IsDomainDot(s, d)
    requires forall i :: d < i < hi ==> s[i] != '.'
    ensures LastDomainDot(s, lo, hi) == d
    decreases hi - lo
  {
    if hi - 1 > d {
      LastDomainDotIs(s, lo, d, hi - 1);
    }
  }

  /** `m` is written in `s` from position `n`. */
  predicate WrittenAt(s: string, m: string, n: nat) {
    n + |m| <= |s| && s[n..n + |m|] == m
  }

  /** A mention written after an `@` at `i`, and not followed by an
      address character, is what the pattern matches at `i`. */
  lemma MatchAtMention(s: string, i: nat, m: string, a: int, d: int)
    requires IsMentionSplit(m, a, d)
    requires i < |s| && s[i] == '@' && WrittenAt(s, m, i + 1)
    requires i + 1 + |m| == |s| || !IsAddressChar(s[i + 1 + |m|])
    ensures MatchAt(s, i) == Some(Found(i, i + 1 + a, i + 1 + d, i + 1 + |m|))
  {
    MentionChars(s, i + 1, m, a, d);
    AddressRunEndIs(s, i + 1, i + 1 + a);
    DomainOfMention(s, i, i + 1 + a, i + 1 + d, i + 1 + |m|);
  }

  /** The characters of a mention `m` written in `s` from `n`. */
  lemma MentionChars(s: string, n: nat, m: string, a: int, d: int)
    requires IsMentionSplit(m, a, d) && WrittenAt(s, m, n)
    ensures s[n + a] == '@' && s[n + d] == '.'
    ensures forall k :: n <= k < n + a ==> IsAddressChar(s[k])
    ensures forall k :: n + a < k < n + |m| ==> IsAddressChar(s[k])
    ensures forall k :: n + d < k < n + |m| ==> IsTldChar(s[k])
  {
    forall k | n <= k < n + |m|
      ensures s[k] == m[k - n]
    {
    }
  }

  /** The domain part `at .. end` of a match is matched whole. */
  lemma DomainOfMention(s: string, i: nat, at: nat, dot: nat, end: nat)
    requires i + 1 < at && at + 1 < dot && dot + 1 < end <= |s|
    requires s[i] == '@' && s[at] == '@' && s[dot] == '.'
    requires forall k :: i < k < at ==> IsAddressChar(s[k])
    requires forall k :: at < k < end ==> IsAddressChar(s[k])
    requires forall k :: dot < k < end ==> IsTldChar(s[k])
    requires end == |s| || !IsAddressChar(s[end])
    ensures DomainMatch(s, i, at) == Some(Found(i, at, dot, end))
  {
    AddressRunEndIs(s, at + 1, end);
    LastDomainDotIs(s, at + 2, dot, end);
    TldRunEndIs(s, dot + 1, end);
  }

  /** When the first `@` of the text, at `i`, starts a match, the search
      takes that match first and resumes after it. */
  lemma SearchFirstMatch(s: string, i: nat, f: Found)
    requires i < |s| && MatchAt(s, i) == Some(f)
    requires forall k :: 0 <= k < i ==> s[k] != '@'
    ensures SearchFrom(s, 0) == [f] + SearchFrom(s, f.end)
  {
    NoAtBetweenIs(s, 0, i);
    MatchesSkipNoAt(s, 0, i);
  }

  /** In a text whose first `@`, at `i`, opens a mention `m` that is not
      followed by an address character, the mentions extracted are `m`
      and then those of the text `q` that follows it. */
  lemma ExtractedAfterMention(s: string, i: nat, m: string, a: int, d: int, q: string)
    requires IsMentionSplit(m, a, d)
    requires i < |s| && s[i] == '@' && WrittenAt(s, m, i + 1)
    requires i + 1 + |m| == |s| || !IsAddressChar(s[i + 1 + |m|])
    requires forall k :: 0 <= k < i ==> s[k] != '@'
    requires SuffixAt(s, q, i + 1 + |m|)
    ensures ExtractMentions(s) == [m] + ExtractMentions(q)
  {
    MatchAtMention(s, i, m, a, d);
    ExtractedAfter(s, q, i, Found(i, i + 1 + a, i + 1 + d, i + 1 + |m|), m);
  }

  /** The same for any match `f` at the first `@`. */
  lemma ExtractedAfter(s: string, q: string, i: nat, f: Found, m: string)
    requires i < |s| && MatchAt(s, i) == Some(f)
    requires forall k :: 0 <= k < i ==> s[k] != '@'
    requires SuffixAt(s, q, f.end) && s[f.start + 1..f.end] == m
    ensures ExtractMentions(s) == [m] + ExtractMentions(q)
  {
    SearchFirstMatch(s, i, f);
    ExtractedShifted(s, q, f.end, f);
  }

  /** Mentions read off a text whose matches are `f` and then those of its
      suffix `q` moved along. */
  lemma ExtractedShifted(s: string, q: string, n: nat, f: Found)
    requires SuffixAt(s, q, n) && f.start + 1 <= f.end <= n
    requires SearchFrom(s, 0) == [f] + SearchFrom(s, n)
    ensures ExtractMentions(s) == [s[f.start + 1..f.end]] + ExtractMentions(q)
  {
    WholeSearchShifted(s, q, n);
    BlocksShifted(s, q, n, f, SearchFrom(s, n), MatchesFrom(q, 0));
  }

  lemma BlocksShifted(s: string, q: string, n: nat, f: Found, later: seq<Found>, rest: seq<Found>)
    requires SuffixAt(s, q, n) && f.start < f.end <= n
    requires forall k :: 0 <= k < |rest| ==> rest[k].start < rest[k].end <= |q|
    requires ShiftedBy(later, rest, n)
    ensures forall k :: 0 <= k < |[f] + later| ==> ([f] + later)[k].start < ([f] + later)[k].end <= |s|
    ensures Blocks(s, [f] + later) == [s[f.start + 1..f.end]] + Blocks(q, rest)
  {
    ShiftedBlocks(s, q, n, later, rest);
    BlocksCons(s, f, later);
  }

  lemma BlocksCons(s: string, f: Found, later: seq<Found>)
    requires f.start < f.end <= |s|
    requires forall k :: 0 <= k < |later| ==> later[k].start < later[k].end <= |s|
    ensures forall k :: 0 <= k < |[f] + later| ==> ([f] + later)[k].start < ([f] + later)[k].end <= |s|
    ensures Blocks(s, [f] + later) == [s[f.start + 1..f.end]] + Blocks(s, later)
  {
    var found := [f] + later;
    assert forall k :: 0 <= k < |later| ==> found[k + 1] == later[k];
    HeadAndTail(Blocks(s, found), Blocks(s, later));
  }

  lemma ShiftedBlocks(s: string, q: string, n: nat, later: seq<Found>, rest: seq<Found>)
    requires SuffixAt(s, q, n)
    requires forall k :: 0 <= k < |rest| ==> rest[k].start < rest[k].end <= |q|
    requires ShiftedBy(later, rest, n)
    ensures forall k :: 0 <= k < |later| ==> later[k].start < later[k].end <= |s|
    ensures Blocks(s, later) == Blocks(q, rest)
  {
    var xs, ys := Blocks(s, later), Blocks(q, rest);
    forall k | 0 <= k < |ys|
      ensures xs[k] == ys[k]
    {
      SuffixSlice(s, q, n, rest[k].start + 1, rest[k].end);
    }
  }

  lemma WholeSearchShifted(s: string, t: string, n: nat)
    requires SuffixAt(s, t, n)
    ensures ShiftedBy(SearchFrom(s, n), SearchFrom(t, 0), n)
  {
    SearchShifted(s, t, n, 0);
  }

  lemma HeadAndTail<T>(xs: seq<T>, ys: seq<T>)
    requires |xs| == 1 + |ys|
    requires forall k :: 0 <= k < |ys| ==> xs[k + 1] == ys[k]
    ensures xs == [xs[0]] + ys
  {
  }

  lemma SuffixSlice(s: string, t: string, n: nat, x: nat, y: nat)
    requires SuffixAt(s, t, n) && x <= y <= |t|
    ensures s[n + x..n + y] == t[x..y]
  {
    var a, b := s[n + x..n + y], t[x..y];
    assert forall k :: 0 <= k < |a| ==> a[k] == s[n + x + k];
  }

  /** The other direction of `ExtractedMentionsShape`: in a text whose
      first `@` opens a mention not followed by an address character, that
      mention is extracted first, followed by the mentions of the rest. */
  lemma MentionExtracted(p: string, m: string, q: string)
    requires '@' !in p && IsMention(m)
    requires q == [] || !IsAddressChar(q[0])
    ensures ExtractMentions(p + "@" + m + q) == [m] + ExtractMentions(q)
  {
    var a, d :| 0 <= a < |m| && 0 <= d < |m| && IsMentionSplit(m, a, d);
    var s, n := p + "@" + m + q, |p| + 1;
    assert s[n..n + |m|] == m;
    forall k | 0 <= k < |q|
      ensures s[n + |m| + k] == q[k]
    {
    }
    assert s[|p|] == '@';
    assert n + |m| < |s| ==> s[n + |m|] == q[0];
    assert forall k :: 0 <= k < |p| ==> s[k] == p[k];
    ExtractedAfterMention(s, |p|, m, a, d, q);
  }

  /** A mention is found at the start of the text and after other text. */
  lemma ExtractMentionsExample()
    ensures ExtractMentions("@a@b.c") == ["a@b.c"]
    ensures ExtractMentions("x@a@b.c") == ["a@b.c"]
  {
    MentionAtStart();
    MentionAfterText();
  }

  lemma MentionAtStart()
    ensures MatchesFrom("@a@b.c", 0) == [Found(0, 2, 4, 6)]
    ensures ExtractMentions("@a@b.c") == ["a@b.c"]
  {
    var s := "@a@b.c";
    assert AddressRunEnd(s, 6) == 6;
    assert AddressRunEnd(s, 3) == 6;
    assert AddressRunEnd(s, 1) == 2;
    assert LastDomainDot(s, 4, 6) == 4;
    assert TldRunEnd(s, 5) == 6;
    assert MatchAt(s, 0) == Some(Found(0, 2, 4, 6));
    assert MatchesFrom(s, 6) == [];
    assert s[1..6] == "a@b.c";
  }

  lemma MentionAfterText()
    ensures MatchesFrom("x@a@b.c", 0) == [Found(1, 3, 5, 7)]
    ensures ExtractMentions("x@a@b.c") == ["a@b.c"]
  {
    var t := "x@a@b.c";
    assert AddressRunEnd(t, 7) == 7;
    assert AddressRunEnd(t, 4) == 7;
    assert AddressRunEnd(t, 2) == 3;
    assert LastDomainDot(t, 5, 7) == 5;
    assert TldRunEnd(t, 6) == 7;
    assert MatchAt(t, 0) == None;
    assert MatchAt(t, 1) == Some(Found(1, 3, 5, 7));
    assert MatchesFrom(t, 7) == [];
    assert MatchesFrom(t, 1) == [Found(1, 3, 5, 7)];
    assert t[2..7] == "a@b.c";
  }

  // ---------------------------------------------------------------------
  // Notifications

  /** `profiles.find(p => p.email === email)`. */
  function ProfileFor(profiles: seq<MentionList.Profile>, email: string): (r: Option<MentionList.Profile>)
    ensures r.None? <==> forall p :: p in profiles ==> p.email != email
    ensures r.Some? ==> r.value in profiles && r.value.email == email
  {
    Lists.FindFirst(profiles, (p: MentionList.Profile) => p.email == email)
  }

  /** The users notified of a sent message: for each mention, in order,
      the first loaded profile with that e-mail; mentions with no profile
      are skipped. */
  function Notified(mentions: seq<string>, profiles: seq<MentionList.Profile>): seq<string> {
    if mentions == [] then []
    else
      var rest := Notified(mentions[1..], profiles);
      match ProfileFor(profiles, mentions[0])
        case Some(p) => [p.id] + rest
        case None => rest
  }

  /** Exactly the mentions that match a loaded profile give a
      notification, and each goes to the owner of a profile whose e-mail
      was mentioned. */
  lemma {:induction false} NotifiedExactly(mentions: seq<string>, profiles: seq<MentionList.Profile>)
    ensures |Notified(mentions, profiles)| == |Lists.Filter(mentions, (e: string) => ProfileFor(profiles, e).Some?)|
    ensures forall id :: id in Notified(mentions, profiles) ==>
      exists p :: p in profiles && p.id == id && p.email in mentions
    decreases |mentions|
  {
    if mentions != [] {
      NotifiedExactly(mentions[1..], profiles);
      assert mentions == [mentions[0]] + mentions[1..];
      forall id | id in Notified(mentions, profiles)
        ensures exists p :: p in profiles && p.id == id && p.email in mentions
      {
        if id in Notified(mentions[1..], profiles) {
          var p :| p in profiles && p.id == id && p.email in mentions[1..];
          assert p.email in mentions;
        } else {
          var p := ProfileFor(profiles, mentions[0]).value;
          assert p in profiles && p.id == id && p.email in mentions;
        }
      }
    }
  }

  /** No loaded profile means no notification. */
  lemma {:induction false} NoProfilesNoNotification(mentions: seq<string>)
    ensures Notified(mentions, []) == []
    decreases |mentions|
  {
    if mentions != [] {
      NoProfilesNoNotification(mentions[1..]);
    }
  }

  // ---------------------------------------------------------------------
  // The chat pane

  datatype ChangeKind = Insert | Update | Delete

  /** The outcome of a send, for the caller to inspect. */
  datatype SendOutcome = NothingToSend | Sent(notified: seq<string>) | SendFailed

  class Chat {
    const leadId: string
    var messages: seq<Message>
    var newMessage: string
    var loading: bool
    var showMentions: bool
    var mentionSearch: string
    var profiles: seq<MentionList.Profile>
    var cursorPosition: int

    constructor(leadId: string)
      ensures this.leadId == leadId
      ensures messages == [] && newMessage == "" && !loading && !showMentions
      ensures mentionSearch == "" && profiles == [] && cursorPosition == 0
    {
      this.leadId := leadId;
      messages := [];
      newMessage := "";
      loading := false;
      showMentions := false;
      mentionSearch := "";
      profiles := [];
      cursorPosition := 0;
    }

    /** `loadMessages`: the rows of this lead replace the list when the
        read returns data; a failed read is only logged. */
    method LoadMessages(failed: bool, data: Option<seq<Message>>)
      modifies this
      ensures messages == if !failed && data.Some? then data.value else old(messages)
      ensures newMessage == old(newMessage) && loading == old(loading) && profiles == old(profiles)
      ensures showMentions == old(showMentions) && mentionSearch == old(mentionSearch)
      ensures cursorPosition == old(cursorPosition)
    {
      if !failed && data.Some? {
        messages := data.value;
      }
    }

    /** `loadProfiles`: likewise for the profiles a mention can name. */
    method LoadProfiles(failed: bool, data: Option<seq<MentionList.Profile>>)
      modifies this
      ensures profiles == if !failed && data.Some? then data.value else old(profiles)
      ensures messages == old(messages) && newMessage == old(newMessage) && loading == old(loading)
      ensures showMentions == old(showMentions) && mentionSearch == old(mentionSearch)
      ensures cursorPosition == old(cursorPosition)
    {
      if !failed && data.Some? {
        profiles := data.value;
      }
    }

    /** `handleNewMessage`: an inserted row is appended; updates and
        deletions leave the list as it is. */
    method OnChange(kind: ChangeKind, row: Message)
      modifies this
      ensures messages == if kind == Insert then old(messages) + [row] else old(messages)
      ensures newMessage == old(newMessage) && loading == old(loading) && profiles == old(profiles)
      ensures showMentions == old(showMentions) && mentionSearch == old(mentionSearch)
      ensures cursorPosition == old(cursorPosition)
    {
      if kind == Insert {
        messages := messages + [row];
      }
    }

    /** `handleInputChange`: the text and the cursor are stored; the
        pop-up opens on the mention window, or closes keeping the last
        search text. */
    method InputChange(value: string, selectionStart: Option<int>)
      modifies this
      ensures newMessage == value && cursorPosition == selectionStart.GetOr(0)
      ensures showMentions == MentionWindow(value, cursorPosition).Some?
      ensures mentionSearch == if showMentions then MentionWindow(value, cursorPosition).value else old(mentionSearch)
      ensures messages == old(messages) && loading == old(loading) && profiles == old(profiles)
    {
      newMessage := value;
      cursorPosition := selectionStart.GetOr(0);
      var w := MentionWindow(value, cursorPosition);
      if w.Some? {
        mentionSearch := w.value;
        showMentions := true;
      } else {
        showMentions := false;
      }
    }

    /** `handleMentionSelect`, with the corrected splice: the mention
        replaces the window the pop-up was opened on; the pop-up closes. */
    method MentionSelect(profile: MentionList.Profile)
      modifies this
      ensures newMessage == SpliceMention(old(newMessage), cursorPosition, profile.email)
      ensures !showMentions
      ensures cursorPosition == old(cursorPosition) && mentionSearch == old(mentionSearch)
      ensures messages == old(messages) && loading == old(loading) && profiles == old(profiles)
    {
      showMentions := false;
      newMessage := SpliceMention(newMessage, cursorPosition, profile.email);
    }

    /** `sendMessage`. Text that is blank after trimming changes nothing.
        Otherwise, with a signed-in user, the message (with id `freshId`,
        time `now` and the mentions it holds) is appended and the input
        cleared before the insert; a failed insert or a missing user
        restores the trimmed text, and the rollback filters on another
        fresh id `rollbackId`, so the optimistic message stays. A
        successful insert notifies the owners of mentioned profiles.
        Loading ends either way. */
    method Send(user: Option<string>, freshId: string, now: string, insertFailed: bool, rollbackId: string)
      returns (outcome: SendOutcome)
      requires rollbackId != freshId && forall m :: m in messages ==> m.id != rollbackId
      modifies this
      ensures var content := Text.Trim(old(newMessage));
        var sent := Message(freshId, content, user.GetOr(""), now, false, Some(ExtractMentions(content)), leadId);
        if content == "" then
          outcome == NothingToSend && messages == old(messages) && newMessage == old(newMessage)
          && loading == old(loading)
        else
          && !loading
          && messages == (if user.None? then old(messages) else old(messages) + [sent])
          && (user.None? || insertFailed ==> outcome == SendFailed && newMessage == content)
          && (user.Some? && !insertFailed ==>
                outcome == Sent(Notified(ExtractMentions(content), profiles)) && newMessage == "")
      ensures profiles == old(profiles) && cursorPosition == old(cursorPosition)
      ensures showMentions == old(showMentions) && mentionSearch == old(mentionSearch)
    {
      var content := Text.Trim(newMessage);
      if content == "" {
        return NothingToSend;
      }
      outcome := Post(content, user, freshId, now, insertFailed, rollbackId);
    }

    /** The part of `sendMessage` after the blank check, for the trimmed
        text `content`. */
    method Post(content: string, user: Option<string>, freshId: string, now: string, insertFailed: bool, rollbackId: string)
      returns (outcome: SendOutcome)
      requires rollbackId != freshId && forall m :: m in messages ==> m.id != rollbackId
      modifies this
      ensures var sent := Message(freshId, content, user.GetOr(""), now, false, Some(ExtractMentions(content)), leadId);
        && !loading
        && messages == (if user.None? then old(messages) else old(messages) + [sent])
        && (user.None? || insertFailed ==> outcome == SendFailed && newMessage == content)
        && (user.Some? && !insertFailed ==>
              outcome == Sent(Notified(ExtractMentions(content), profiles)) && newMessage == "")
      ensures profiles == old(profiles) && cursorPosition == old(cursorPosition)
      ensures showMentions == old(showMentions) && mentionSearch == old(mentionSearch)
    {
      loading := true;
      var failed := false;
      if user.None? {
        failed := true;
      } else {
        var mentions := ExtractMentions(content);
        var sent := Message(freshId, content, user.value, now, false, Some(mentions), leadId);
        messages := messages + [sent];
        newMessage := "";
        if insertFailed {
          failed := true;
        } else {
          outcome := Sent(Notified(mentions, profiles));
        }
      }
      if failed {
        RollbackKeeps(messages, rollbackId);
        messages := Rollback(messages, rollbackId);
        newMessage := content;
        outcome := SendFailed;
      }
      loading := false;
    }
  }

  /** `prev.filter(m => m.id !== rollbackId)`. */
  function Rollback(messages: seq<Message>, rollbackId: string): seq<Message> {
    Lists.Filter(messages, (m: Message) => m.id != rollbackId)
  }

  /** The rollback filter against an id no message carries removes
      nothing. */
  lemma RollbackKeeps(messages: seq<Message>, rollbackId: string)
    requires forall m :: m in messages ==> m.id != rollbackId
    ensures Rollback(messages, rollbackId) == messages
  {
    Lists.FilterKeepsAll(messages, (m: Message) => m.id != rollbackId);
  }

  /** A failed send leaves the optimistic message in the list, last, with
      the content restored to the input: a retry sends it a second time. */
  lemma FailedSendKeepsOptimistic(messages: seq<Message>, sent: Message, rollbackId: string)
    requires rollbackId != sent.id && forall m :: m in messages ==> m.id != rollbackId
    ensures Rollback(messages + [sent], rollbackId) == messages + [sent]
    ensures Rollback(messages + [sent], rollbackId)[|messages|] == sent
  {
    RollbackKeeps(messages + [sent], rollbackId);
  }
}
