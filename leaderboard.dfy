/** The `leaderboard` command: the top users by points, ranked, with each
    username passed through the character-stripping sanitiser. */
module Leaderboard {
  import opened Options
  import opened Text

  /** A stored leaderboard document; the username field may be missing. */
  datatype Entry = Entry(username: Option<string>, points: int)

  /** One line of the reply: `{rank}. @{name} - {points} points`. */
  datatype Row = Row(rank: nat, name: string, points: int)

  datatype Reply = NoData | Ranking(rows: seq<Row>)

  /** The `.limit(5)` of the query. */
  const Limit: nat := 5

  /** The character class `[_*[\]()~`>#+-=|{}.!]`. Inside it `+-=` is the
      range from `+` to `=`, which also takes in `,`, `-`, `.`, `/`, the
      digits, `:`, `;` and `<`. */
  predicate Stripped(c: char)
  {
    || c == '_' || c == '*' || c == '[' || c == ']' || c == '(' || c == ')'
    || c == '~' || c == '`' || c == '>' || c == '#'
    || '+' <= c <= '='
    || c == '|' || c == '{' || c == '}' || c == '.' || c == '!'
  }

  /** `re.sub(class, '', s)`: every character of the class is deleted. */
  function Sanitize(s: string): (r: string)
    ensures forall i :: 0 <= i < |r| ==> !Stripped(r[i])
    ensures |r| <= |s|
    decreases |s|
  {
    if s == [] then []
    else if Stripped(s[0]) then Sanitize(s[1..])
    else [s[0]] + Sanitize(s[1..])
  }

  /** Every character outside the class is kept, as often as it occurs. */
  lemma {:induction false} SanitizeKeepsOthers(s: string, c: char)
    requires !Stripped(c)
    ensures multiset(Sanitize(s))[c] == multiset(s)[c]
    decreases |s|
  {
    if s != [] {
      SanitizeKeepsOthers(s[1..], c);
      assert s == [s[0]] + s[1..];
    }
  }

  /** The kept characters stay in their original order. */
  lemma {:induction false} SanitizeSubsequence(s: string)
    ensures IsSubsequence(Sanitize(s), s)
    decreases |s|
  {
    if s != [] {
      SanitizeSubsequence(s[1..]);
      if !Stripped(s[0]) {
        var r := [s[0]] + Sanitize(s[1..]);
        assert r[1..] == Sanitize(s[1..]);
      } else {
        SubsequenceOfTail(Sanitize(s[1..]), s);
      }
    }
  }

  lemma SubsequenceOfTail(r: string, s: string)
    requires s != [] && IsSubsequence(r, s[1..])
    ensures IsSubsequence(r, s)
  {
  }

  /** A string without stripped characters is left as it is. */
  lemma {:induction false} SanitizeClean(s: string)
    requires forall i :: 0 <= i < |s| ==> !Stripped(s[i])
    ensures Sanitize(s) == s
    decreases |s|
  {
    if s != [] {
      SanitizeClean(s[1..]);
      assert [s[0]] + s[1..] == s;
    }
  }

  /** Sanitising twice is sanitising once. */
  lemma SanitizeIdempotent(s: string)
    ensures Sanitize(Sanitize(s)) == Sanitize(s)
  {
    SanitizeClean(Sanitize(s));
  }

  /** The three properties above pin the sanitiser down: a subsequence of `s`
      with no stripped character that keeps every other character as often
      as `s` has it is `Sanitize(s)`. */
  lemma {:induction false} SanitizeUnique(s: string, r: string)
    requires IsSubsequence(r, s)
    requires forall i :: 0 <= i < |r| ==> !Stripped(r[i])
    requires forall c :: !Stripped(c) ==> multiset(r)[c] == multiset(s)[c]
    ensures r == Sanitize(s)
    decreases |s|
  {
    if s != [] {
      var x, t := s[0], s[1..];
      assert s == [x] + t;
      if Stripped(x) {
        assert IsSubsequence(r, t);
        SanitizeUnique(t, r);
      } else {
        assert r != [];
        if r[0] == x && IsSubsequence(r[1..], t) {
          assert r == [x] + r[1..];
          SanitizeUnique(t, r[1..]);
        } else {
          SubsequenceMultiset(r, t);
          assert false;
        }
      }
    }
  }

  /** Sanitising works character by character, so it distributes over
      concatenation. */
  lemma {:induction false} SanitizeConcat(a: string, b: string)
    ensures Sanitize(a + b) == Sanitize(a) + Sanitize(b)
    decreases |a|
  {
    if a != [] {
      SanitizeConcat(a[1..], b);
      var ab := a + b;
      assert ab != [] && ab[0] == a[0] && ab[1..] == a[1..] + b;
      if !Stripped(a[0]) {
        assert Sanitize(ab) == [a[0]] + (Sanitize(a[1..]) + Sanitize(b));
      }
    } else {
      assert a + b == b;
    }
  }

  /** A string made only of stripped characters disappears. */
  lemma {:induction false} SanitizeAllStripped(s: string)
    requires forall i :: 0 <= i < |s| ==> Stripped(s[i])
    ensures Sanitize(s) == []
    decreases |s|
  {
    if s != [] {
      SanitizeAllStripped(s[1..]);
    }
  }

  /** Because of the `+-=` range the digits go too: "user_42" is shown as
      "user". */
  lemma SanitizeDropsDigits()
    ensures Sanitize("user_42") == "user"
  {
    assert "user_42" == "user" + "_42";
    SanitizeConcat("user", "_42");
    SanitizeClean("user");
    SanitizeAllStripped("_42");
  }

  /** `user.get("username", "Unknown")`. */
  function DisplayName(username: Option<string>): string
  {
    match username
    case Some(name) => name
    case None => "Unknown"
  }

  /** What `find().sort("points", -1).limit(5)` may return over `entries`:
      up to five of the entries in non-increasing order of points, none of
      the others scoring more than any shown. The order among equal points
      is not fixed. */
  predicate IsQueryAnswer(entries: seq<Entry>, top: seq<Entry>)
  {
    && |top| == (if |entries| < Limit then |entries| else Limit)
    && multiset(top) <= multiset(entries)
    && (forall i, j :: 0 <= i < j < |top| ==> top[i].points >= top[j].points)
    && (forall e, i :: e in multiset(entries) - multiset(top) && 0 <= i < |top| ==> e.points <= top[i].points)
  }

  /** `leaderboard`: the "no data" reply for an empty collection; otherwise
      one row per user of the query answer, ranked 1, 2, ... in order. */
  method Leaderboard(entries: seq<Entry>, top: seq<Entry>) returns (reply: Reply)
    requires IsQueryAnswer(entries, top)
    ensures reply == NoData <==> entries == []
    ensures reply.Ranking? ==>
      && 1 <= |reply.rows| <= Limit
      && |reply.rows| == |top|
      && (forall i :: 0 <= i < |reply.rows| ==>
            reply.rows[i] == Row(i + 1, Sanitize(DisplayName(top[i].username)), top[i].points))
      && (forall i, j :: 0 <= i < j < |reply.rows| ==> reply.rows[i].points >= reply.rows[j].points)
      && (forall e, i :: e in multiset(entries) - multiset(top) && 0 <= i < |reply.rows| ==>
            e.points <= reply.rows[i].points)
  {
    if |entries| == 0 {
      return NoData;
    }
    var rows: seq<Row> := [];
    var rank := 1;
    for k := 0 to |top|
      invariant rank == k + 1
      invariant |rows| == k
      invariant forall i :: 0 <= i < k ==>
        rows[i] == Row(i + 1, Sanitize(DisplayName(top[i].username)), top[i].points)
    {
      rows := rows + [Row(rank, Sanitize(DisplayName(top[k].username)), top[k].points)];
      rank := rank + 1;
    }
    reply := Ranking(rows);
  }

  /** `entries` ordered by non-increasing points (insertion sort). */
  function SortByPoints(entries: seq<Entry>): (sorted: seq<Entry>)
    ensures multiset(sorted) == multiset(entries) && |sorted| == |entries|
    ensures forall i, j :: 0 <= i < j < |sorted| ==> sorted[i].points >= sorted[j].points
    decreases |entries|
  {
    if entries == [] then []
    else
      assert entries == [entries[0]] + entries[1..];
      Insert(entries[0], SortByPoints(entries[1..]))
  }

  function Insert(e: Entry, sorted: seq<Entry>): (r: seq<Entry>)
    requires forall i, j :: 0 <= i < j < |sorted| ==> sorted[i].points >= sorted[j].points
    ensures multiset(r) == multiset{e} + multiset(sorted)
    ensures |r| == |sorted| + 1
    ensures r[0] == e || (sorted != [] && r[0] == sorted[0])
    ensures forall i, j :: 0 <= i < j < |r| ==> r[i].points >= r[j].points
    decreases |sorted|
  {
    if sorted == [] || sorted[0].points <= e.points then [e] + sorted
    else
      var rest := Insert(e, sorted[1..]);
      assert sorted == [sorted[0]] + sorted[1..];
      assert sorted[0].points >= rest[0].points;
      [sorted[0]] + rest
  }

  /** In a sorted sequence, nothing after position `n` outscores anything
      before it. */
  lemma SortedSuffixBelow(sorted: seq<Entry>, n: nat, e: Entry, i: nat)
    requires forall i, j :: 0 <= i < j < |sorted| ==> sorted[i].points >= sorted[j].points
    requires n <= |sorted| && e in sorted[n..] && i < n
    ensures e.points <= sorted[i].points
  {
    var rest := sorted[n..];
    var j :| 0 <= j < |rest| && rest[j] == e;
    assert sorted[n + j] == e;
  }

  /** The first five of a sorted rearrangement of the entries answer the
      query. */
  lemma SortedPrefixAnswers(entries: seq<Entry>, sorted: seq<Entry>, n: nat)
    requires multiset(sorted) == multiset(entries)
    requires forall i, j :: 0 <= i < j < |sorted| ==> sorted[i].points >= sorted[j].points
    requires |sorted| == |entries|
    requires n == if |entries| < Limit then |entries| else Limit
    ensures IsQueryAnswer(entries, sorted[..n])
  {
    var top, rest := sorted[..n], sorted[n..];
    assert sorted == top + rest;
    assert multiset(entries) - multiset(top) == multiset(rest);
    forall e, i | e in multiset(entries) - multiset(top) && 0 <= i < |top|
      ensures e.points <= top[i].points
    {
      assert e in rest;
      SortedSuffixBelow(sorted, n, e, i);
    }
  }

  /** Whatever the stored entries, the query has an answer, so the
      requirement of `Leaderboard` is always met by the database. */
  lemma QueryAnswerExists(entries: seq<Entry>)
    ensures exists top :: IsQueryAnswer(entries, top)
  {
    var sorted := SortByPoints(entries);
    var n := if |entries| < Limit then |entries| else Limit;
    SortedPrefixAnswers(entries, sorted, n);
  }
}
