/** Shared vocabulary: optional values, flattening, and trimming of text. */
module Support {

  datatype Option<+T> = None | Some(value: T)

  function Or<T>(o: Option<T>, default: T): T {
    if o.Some? then o.value else default
  }

  /** The members of a sequence of sequences, in order. */
  function Flatten<T>(parts: seq<seq<T>>): seq<T> {
    if parts == [] then [] else parts[0] + Flatten(parts[1..])
  }

  lemma {:induction false} FlattenAppend<T>(a: seq<seq<T>>, b: seq<seq<T>>)
    ensures Flatten(a + b) == Flatten(a) + Flatten(b)
  {
    if a == [] {
      assert a + b == b;
    } else {
      assert (a + b)[1..] == a[1..] + b;
      FlattenAppend(a[1..], b);
    }
  }

  lemma FlattenSnoc<T>(a: seq<seq<T>>, x: seq<T>)
    ensures Flatten(a + [x]) == Flatten(a) + x
  {
    FlattenAppend(a, [x]);
    assert Flatten([x]) == x + Flatten([x][1..]);
  }

  /** The positions below `n` at which something holds, in order. */
  ghost predicate Positions(ps: seq<nat>, n: nat, holds: nat -> bool) {
    && (forall a, b | 0 <= a < b < |ps| :: ps[a] < ps[b])
    && (forall p | p in ps :: p < n && holds(p))
    && forall p: nat | p < n && holds(p) :: p in ps
  }

  lemma NoPositions(holds: nat -> bool)
    ensures Positions([], 0, holds)
  {
  }

  lemma PositionsNext(ps: seq<nat>, n: nat, holds: nat -> bool)
    requires Positions(ps, n, holds)
    ensures holds(n) ==> Positions(ps + [n], n + 1, holds)
    ensures !holds(n) ==> Positions(ps, n + 1, holds)
  {
    if holds(n) {
      forall a, b | 0 <= a < b < |ps + [n]| ensures (ps + [n])[a] < (ps + [n])[b] {
        assert ps[a] in ps;
      }
    }
  }

  /** `s` without the leading characters that satisfy `blank`. */
  function TrimStart(s: string, blank: char -> bool): (r: string)
    ensures |r| <= |s| && (|r| == |s| ==> r == s)
  {
    if s == "" || !blank(s[0]) then s else TrimStart(s[1..], blank)
  }

  /** `s` without the trailing characters that satisfy `blank`. */
  function TrimEnd(s: string, blank: char -> bool): (r: string)
    ensures |r| <= |s|
  {
    if s == "" || !blank(s[|s| - 1]) then s else TrimEnd(s[..|s| - 1], blank)
  }

  function Trim(s: string, blank: char -> bool): string {
    TrimEnd(TrimStart(s, blank), blank)
  }

  lemma {:induction false} TrimStartStops(s: string, blank: char -> bool)
    ensures TrimStart(s, blank) == "" || !blank(TrimStart(s, blank)[0])
  {
    if s != "" { TrimStartStops(s[1..], blank); }
  }

  lemma {:induction false} TrimEndStops(s: string, blank: char -> bool)
    ensures var r := TrimEnd(s, blank);
      r == "" || (r[0] == s[0] && !blank(r[|r| - 1]))
  {
    if s != "" { TrimEndStops(s[..|s| - 1], blank); }
  }

  predicate AllBlank(s: string, blank: char -> bool) {
    forall i | 0 <= i < |s| :: blank(s[i])
  }

  lemma {:induction false} TrimStartSplits(s: string, blank: char -> bool) returns (before: string)
    ensures s == before + TrimStart(s, blank) && AllBlank(before, blank)
  {
    before := "";
    if s != "" && blank(s[0]) {
      before := TrimStartSplits(s[1..], blank);
      before := [s[0]] + before;
    }
  }

  lemma {:induction false} TrimEndSplits(s: string, blank: char -> bool) returns (after: string)
    ensures s == TrimEnd(s, blank) + after && AllBlank(after, blank)
  {
    after := "";
    if s != "" && blank(s[|s| - 1]) {
      after := TrimEndSplits(s[..|s| - 1], blank);
      after := after + [s[|s| - 1]];
    }
  }

  /** Trimming takes off blanks at both ends, and all of them. */
  lemma TrimIs(s: string, blank: char -> bool) returns (before: string, after: string)
    ensures var r := Trim(s, blank);
      && s == before + r + after && AllBlank(before, blank) && AllBlank(after, blank)
      && (r == "" || (!blank(r[0]) && !blank(r[|r| - 1])))
  {
    before := TrimStartSplits(s, blank);
    after := TrimEndSplits(TrimStart(s, blank), blank);
    TrimStartStops(s, blank);
    TrimEndStops(TrimStart(s, blank), blank);
  }

  /** Trimmed text has nothing left to trim. */
  lemma TrimTwice(s: string, blank: char -> bool)
    ensures Trim(Trim(s, blank), blank) == Trim(s, blank)
  {
    TrimStartStops(s, blank);
    TrimEndStops(TrimStart(s, blank), blank);
  }

  /** `sep.join(parts)` */
  function Join(parts: seq<string>, sep: string): string {
    if parts == [] then "" else if |parts| == 1 then parts[0] else parts[0] + sep + Join(parts[1..], sep)
  }

  lemma {:induction false} JoinAppend(a: seq<string>, b: seq<string>, sep: string)
    ensures Join(a + b, sep) ==
      if a == [] then Join(b, sep) else if b == [] then Join(a, sep) else Join(a, sep) + sep + Join(b, sep)
  {
    if a == [] {
      assert a + b == b;
    } else if b == [] {
      assert a + b == a;
    } else {
      assert (a + b)[1..] == a[1..] + b;
      JoinAppend(a[1..], b, sep);
    }
  }

  predicate HasAt(text: string, part: string, i: nat) {
    i + |part| <= |text| && text[i..i + |part|] == part
  }

  ghost predicate Contains(text: string, part: string) {
    exists i :: HasAt(text, part, i)
  }

  lemma ContainsAt(before: string, part: string, after: string)
    ensures Contains(before + part + after, part)
  {
    assert HasAt(before + part + after, part, |before|);
  }

  /** Joining keeps every part verbatim. */
  lemma {:induction false} JoinContains(parts: seq<string>, i: nat, sep: string) returns (before: string, after: string)
    requires i < |parts|
    ensures Join(parts, sep) == before + parts[i] + after
    ensures i == 0 ==> before == ""
    decreases |parts|
  {
    if i == 0 {
      before, after := "", if |parts| == 1 then "" else sep + Join(parts[1..], sep);
    } else {
      before, after := JoinContains(parts[1..], i - 1, sep);
      before := parts[0] + sep + before;
    }
  }

  function Digits(n: nat): (s: string)
    ensures s != ""
  {
    (if n < 10 then "" else Digits(n / 10)) + [(48 + n % 10) as char]
  }

  /** The number that a row of decimal digits spells. */
  function NumberOf(digits: string): int {
    if digits == "" then 0
    else 10 * NumberOf(digits[..|digits| - 1]) + (digits[|digits| - 1] as int - 48)
  }

  lemma NumberSnoc(front: string, d: char)
    ensures NumberOf(front + [d]) == 10 * NumberOf(front) + (d as int - 48)
  {
    assert (front + [d])[..|front|] == front;
  }

  lemma {:induction false} DigitsSpell(n: nat)
    ensures NumberOf(Digits(n)) == n
  {
    hide NumberOf;
    var front := if n < 10 then "" else Digits(n / 10);
    NumberSnoc(front, (48 + n % 10) as char);
    if n >= 10 {
      DigitsSpell(n / 10);
    } else {
      NumberOfNothing();
    }
  }

  lemma NumberOfNothing()
    ensures NumberOf("") == 0
  {
  }

  /** White space as JavaScript's `trim` sees it. */
  predicate IsJsSpace(c: char) {
    || c == ' ' || '\t' <= c <= '\r' || c == '\U{a0}' || c == '\U{feff}' || c == '\U{1680}'
    || '\U{2000}' <= c <= '\U{200a}' || c == '\U{2028}' || c == '\U{2029}' || c == '\U{202f}'
    || c == '\U{205f}' || c == '\U{3000}'
  }
}
