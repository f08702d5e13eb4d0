/** The drop announcement pattern `<@!?([0-9]+)> is dropping ([3-4]) cards!`
    (karuta/karuta.py:14) and the "first match" that `re.findall(...)[0]`
    selects (karuta/karuta.py:210-214).

    The pattern leaves the matcher no real choice: `!?` can only be taken when
    the next character is `!`, and the greedy digit run must end right before
    `>`, so a match starting at a given position is unique. `MatchAt` is the
    deterministic scan; `MatchesAt` is the pattern read as a set of strings;
    `MatchAtSound` and `MatchAtComplete` tie the two together. */
module DropRegex {
  import opened Options
  import opened Decimal

  const Open: string := "<@"
  const Middle: string := "> is dropping "
  const Close: string := " cards!"

  /** The two capture groups: the mentioned user's digits and the card count. */
  datatype DropMatch = DropMatch(user: string, cards: char)

  predicate IsCardCount(c: char) {
    c == '3' || c == '4'
  }

  /** `w` occurs in `s` starting at position `i`. */
  predicate Occurs(s: string, i: nat, w: string) {
    i + |w| <= |s| && s[i..i + |w|] == w
  }

  lemma OccursSplit(s: string, i: nat, a: string, b: string)
    ensures Occurs(s, i, a + b) <==> Occurs(s, i, a) && Occurs(s, i + |a|, b)
  {
    if Occurs(s, i, a + b) {
      assert s[i..i + |a|] == (a + b)[..|a|];
      assert s[i + |a|..i + |a| + |b|] == (a + b)[|a|..];
    }
    if Occurs(s, i, a) && Occurs(s, i + |a|, b) {
      assert s[i..i + |a| + |b|] == s[i..i + |a|] + s[i + |a|..i + |a| + |b|];
    }
  }

  function BangText(bang: bool): string {
    if bang then "!" else ""
  }

  /** What follows the user id in an announcement. */
  function SuffixText(cards: char): string {
    Middle + [cards] + Close
  }

  /** The text the pattern accepts for one choice of the optional `!`. */
  function PatternText(bang: bool, user: string, cards: char): string {
    Open + BangText(bang) + user + SuffixText(cards)
  }

  /** The pattern, read as a language, matches `s` at position `i` with
      capture groups `user` and `cards`. */
  ghost predicate MatchesAt(s: string, i: nat, user: string, cards: char) {
    && |user| > 0
    && AllDigits(user)
    && IsCardCount(cards)
    && exists bang: bool :: Occurs(s, i, PatternText(bang, user, cards))
  }

  /** End of the longest run of digits starting at `j` (greedy `[0-9]+`). */
  function DigitRunEnd(s: string, j: nat): (k: nat)
    requires j <= |s|
    ensures j <= k <= |s|
    ensures forall t :: j <= t < k ==> IsDigit(s[t])
    ensures k == |s| || !IsDigit(s[k])
    decreases |s| - j
  {
    if j < |s| && IsDigit(s[j]) then DigitRunEnd(s, j + 1) else j
  }

  /** A digit run that stops at a non-digit is the greedy run. */
  lemma DigitRunEndAt(s: string, j: nat, k: nat)
    requires j <= k < |s|
    requires forall t :: j <= t < k ==> IsDigit(s[t])
    requires !IsDigit(s[k])
    ensures DigitRunEnd(s, j) == k
  {
  }

  /** Where the digits start: after `<@`, and after the `!` when there is one. */
  function DigitsStart(s: string, i: nat): nat {
    if i + 2 < |s| && s[i + 2] == '!' then i + 3 else i + 2
  }

  /** The part of the pattern after the digits matches at `k`, with this card count. */
  predicate SuffixAt(s: string, k: nat) {
    var m := k + |Middle|;
    Occurs(s, k, Middle) && m < |s| && IsCardCount(s[m]) && Occurs(s, m + 1, Close)
  }

  lemma SuffixAtOccurs(s: string, k: nat, cards: char)
    ensures SuffixAt(s, k) && s[k + |Middle|] == cards <==> IsCardCount(cards) && Occurs(s, k, SuffixText(cards))
  {
    OccursSplit(s, k, Middle + [cards], Close);
    OccursSplit(s, k, Middle, [cards]);
  }

  /** The match attempt of the regular expression engine at position `i`. */
  function MatchAt(s: string, i: nat): (r: Option<DropMatch>)
    requires i <= |s|
    ensures r.Some? ==> |r.value.user| > 0 && AllDigits(r.value.user) && IsCardCount(r.value.cards)
  {
    if !Occurs(s, i, Open) then None
    else
      var j := DigitsStart(s, i);
      var k := DigitRunEnd(s, j);
      if k == j || !SuffixAt(s, k) then None
      else Some(DropMatch(s[j..k], s[k + |Middle|]))
  }

  lemma PatternSplit(s: string, i: nat, bang: bool, user: string, cards: char)
    ensures Occurs(s, i, PatternText(bang, user, cards)) <==>
      && Occurs(s, i, Open)
      && Occurs(s, i + 2, BangText(bang))
      && Occurs(s, i + 2 + |BangText(bang)|, user)
      && Occurs(s, i + 2 + |BangText(bang)| + |user|, SuffixText(cards))
  {
    var b := BangText(bang);
    OccursSplit(s, i, Open + b + user, SuffixText(cards));
    OccursSplit(s, i, Open + b, user);
    OccursSplit(s, i, Open, b);
  }

  /** Whatever the scan reports is a genuine occurrence of the pattern. */
  lemma MatchAtSound(s: string, i: nat)
    requires i <= |s|
    requires MatchAt(s, i).Some?
    ensures MatchesAt(s, i, MatchAt(s, i).value.user, MatchAt(s, i).value.cards)
  {
    var j := DigitsStart(s, i);
    var k := DigitRunEnd(s, j);
    var m := k + |Middle|;
    assert Occurs(s, i, Open) && k != j && SuffixAt(s, k);
    var u, c := s[j..k], s[m];
    assert MatchAt(s, i) == Some(DropMatch(u, c));
    var bang := j == i + 3;
    assert Occurs(s, i + 2, BangText(bang)) by {
      if bang {
        assert s[i + 2..i + 3] == [s[i + 2]];
      }
    }
    assert Occurs(s, j, u);
    SuffixAtOccurs(s, k, c);
    PatternSplit(s, i, bang, u, c);
  }

  lemma DigitsStartAt(s: string, i: nat, bang: bool, user: string)
    requires |user| > 0 && AllDigits(user)
    requires Occurs(s, i + 2, BangText(bang))
    requires Occurs(s, i + 2 + |BangText(bang)|, user)
    ensures DigitsStart(s, i) == i + 2 + |BangText(bang)|
  {
  }

  lemma DigitsEndAt(s: string, j: nat, user: string, cards: char)
    requires |user| > 0 && AllDigits(user)
    requires Occurs(s, j, user)
    requires Occurs(s, j + |user|, SuffixText(cards))
    ensures DigitRunEnd(s, j) == j + |user|
  {
    var k := j + |user|;
    forall t | j <= t < k
      ensures IsDigit(s[t])
    {
      assert s[t] == s[j..k][t - j] == user[t - j];
    }
    assert s[k] == s[k..k + |SuffixText(cards)|][0] == SuffixText(cards)[0] == '>';
    DigitRunEndAt(s, j, k);
  }

  /** Every occurrence of the pattern is found by the scan, with the same
      capture groups; in particular the captures at a position are unique. */
  lemma MatchAtComplete(s: string, i: nat, user: string, cards: char)
    requires i <= |s|
    requires MatchesAt(s, i, user, cards)
    ensures MatchAt(s, i) == Some(DropMatch(user, cards))
  {
    var bang :| Occurs(s, i, PatternText(bang, user, cards));
    PatternSplit(s, i, bang, user, cards);
    var j := i + 2 + |BangText(bang)|;
    var k := j + |user|;
    DigitsStartAt(s, i, bang, user);
    DigitsEndAt(s, j, user, cards);
    SuffixAtOccurs(s, k, cards);
    assert s[j..k] == user;
  }

  /** The leftmost match at or after `from`, with its position. */
  datatype Found = Found(pos: nat, m: DropMatch)

  function SearchFrom(s: string, from: nat): (r: Option<Found>)
    requires from <= |s|
    ensures r.Some? ==> from <= r.value.pos <= |s| && MatchAt(s, r.value.pos) == Some(r.value.m)
    ensures r.Some? ==> forall p :: from <= p < r.value.pos ==> MatchAt(s, p).None?
    ensures r.None? ==> forall p :: from <= p <= |s| ==> MatchAt(s, p).None?
    decreases |s| - from
  {
    match MatchAt(s, from)
    case Some(m) => Some(Found(from, m))
    case None => if from == |s| then None else SearchFrom(s, from + 1)
  }

  /** `re.findall(DROP_REGEX, s)[0]`, or `None` when the list is empty. */
  function FirstMatch(s: string): (r: Option<Found>)
    ensures r.Some? ==> r.value.pos <= |s| && MatchAt(s, r.value.pos) == Some(r.value.m)
    ensures r.Some? ==> forall p :: 0 <= p < r.value.pos ==> MatchAt(s, p).None?
    ensures r.None? ==> forall p :: 0 <= p <= |s| ==> MatchAt(s, p).None?
  {
    SearchFrom(s, 0)
  }

  /** The first match, stated against the pattern as a language: it is an
      occurrence of the pattern, no occurrence starts earlier, and when there
      is no first match the pattern occurs nowhere. */
  lemma FirstMatchIsLeftmost(s: string)
    ensures FirstMatch(s).Some? ==>
      MatchesAt(s, FirstMatch(s).value.pos, FirstMatch(s).value.m.user, FirstMatch(s).value.m.cards)
    ensures FirstMatch(s).Some? ==>
      forall p, u, c :: 0 <= p < FirstMatch(s).value.pos ==> !MatchesAt(s, p, u, c)
    ensures FirstMatch(s).None? ==>
      forall p, u, c :: 0 <= p <= |s| ==> !MatchesAt(s, p, u, c)
  {
    var r := FirstMatch(s);
    if r.Some? {
      MatchAtSound(s, r.value.pos);
      forall p, u, c | 0 <= p < r.value.pos ensures !MatchesAt(s, p, u, c) {
        if MatchesAt(s, p, u, c) {
          MatchAtComplete(s, p, u, c);
        }
      }
    } else {
      forall p, u, c | 0 <= p <= |s| ensures !MatchesAt(s, p, u, c) {
        if MatchesAt(s, p, u, c) {
          MatchAtComplete(s, p, u, c);
        }
      }
    }
  }

}
