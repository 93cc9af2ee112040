/** Value types and sequence/text helpers shared by the application's modules.
    JavaScript's `trim`, `toLowerCase`, `\s` and `includes` are modelled here on
    ASCII text. */
module Common {

  datatype Option<T> = None | Some(value: T)

  // ---------------------------------------------------------------------------
  // Sequences
  // ---------------------------------------------------------------------------

  /** `s.filter(e => e !== x)`: every element of `s` except `x`, in order. */
  function RemoveAll<T(==,!new)>(s: seq<T>, x: T): (r: seq<T>)
    ensures forall y :: y in r <==> y in s && y != x
    ensures |r| <= |s|
  {
    if s == [] then []
    else (if s[0] == x then [] else [s[0]]) + RemoveAll(s[1..], x)
  }

  /** Filtering out an element that is not there changes nothing. */
  lemma {:induction false} RemoveAllAbsent<T(!new)>(s: seq<T>, x: T)
    requires x !in s
    ensures RemoveAll(s, x) == s
  {
    if s != [] {
      RemoveAllAbsent(s[1..], x);
      assert s == [s[0]] + s[1..];
    }
  }

  /** Filtering out the same element twice is filtering it out once. */
  lemma RemoveAllIdempotent<T(!new)>(s: seq<T>, x: T)
    ensures RemoveAll(RemoveAll(s, x), x) == RemoveAll(s, x)
  {
    RemoveAllAbsent(RemoveAll(s, x), x);
  }

  /** Filtering distributes over concatenation. */
  lemma {:induction false} RemoveAllAppend<T(!new)>(s: seq<T>, t: seq<T>, x: T)
    ensures RemoveAll(s + t, x) == RemoveAll(s, x) + RemoveAll(t, x)
  {
    if s != [] {
      RemoveAllAppend(s[1..], t, x);
      assert (s + t)[1..] == s[1..] + t;
    } else {
      assert s + t == t;
    }
  }

  /** Filtering keeps a duplicate-free sequence duplicate-free. */
  lemma {:induction false} RemoveAllNoDuplicates<T(!new)>(s: seq<T>, x: T)
    requires NoDuplicates(s)
    ensures NoDuplicates(RemoveAll(s, x))
  {
    if s != [] {
      RemoveAllNoDuplicates(s[1..], x);
      assert s[0] !in s[1..];
    }
  }

  // ---------------------------------------------------------------------------
  // Records keyed by an id
  // ---------------------------------------------------------------------------

  /** `s.filter(x => !drop.has(key(x)))`: the records whose key is not dropped, in order. */
  function Keep<T(==,!new)>(s: seq<T>, key: T -> string, drop: set<string>): (r: seq<T>)
    ensures forall x :: x in r <==> x in s && key(x) !in drop
    ensures |r| <= |s|
  {
    if s == [] then []
    else (if key(s[0]) in drop then [] else [s[0]]) + Keep(s[1..], key, drop)
  }

  /** Filtering twice is filtering once by both id sets. */
  lemma {:induction false} KeepKeep<T(!new)>(s: seq<T>, key: T -> string, a: set<string>, b: set<string>)
    ensures Keep(Keep(s, key, a), key, b) == Keep(s, key, a + b)
  {
    if s != [] {
      KeepKeep(s[1..], key, a, b);
      var head := if key(s[0]) in a then [] else [s[0]];
      KeepAppend(head, Keep(s[1..], key, a), key, b);
      assert Keep(head, key, b) == (if key(s[0]) in a + b then [] else [s[0]]);
    }
  }

  lemma {:induction false} KeepAppend<T(!new)>(s: seq<T>, t: seq<T>, key: T -> string, drop: set<string>)
    ensures Keep(s + t, key, drop) == Keep(s, key, drop) + Keep(t, key, drop)
  {
    if s == [] {
      assert s + t == t;
    } else {
      KeepAppend(s[1..], t, key, drop);
      KeepCons(s, t, key, drop);
    }
  }

  /** One step of `KeepAppend`: the head of `s` is decided on its own. */
  lemma KeepCons<T(!new)>(s: seq<T>, t: seq<T>, key: T -> string, drop: set<string>)
    requires s != []
    requires Keep(s[1..] + t, key, drop) == Keep(s[1..], key, drop) + Keep(t, key, drop)
    ensures Keep(s + t, key, drop) == Keep(s, key, drop) + Keep(t, key, drop)
  {
    TailOfAppend(s, t);
    var head := if key(s[0]) in drop then [] else [s[0]];
    AppendAssoc(head, Keep(s[1..], key, drop), Keep(t, key, drop));
  }

  lemma AppendAssoc<T>(a: seq<T>, b: seq<T>, c: seq<T>)
    ensures (a + b) + c == a + (b + c)
  {}

  lemma HeadTail<T>(s: seq<T>)
    requires s != []
    ensures s == [s[0]] + s[1..]
  {}

  lemma EmptyFront<T>(a: seq<T>)
    ensures [] + a == a
  {}

  lemma EmptyBack<T>(a: seq<T>)
    ensures a + [] == a
  {}

  lemma EqualTrans<T>(a: seq<T>, b: seq<T>, c: seq<T>)
    requires a == b && b == c
    ensures a == c
  {}

  lemma TailOfAppend<T>(s: seq<T>, t: seq<T>)
    requires s != []
    ensures (s + t)[0] == s[0] && (s + t)[1..] == s[1..] + t
  {}

  /** Filtering out ids that no record has changes nothing. */
  lemma {:induction false} KeepNothing<T(!new)>(s: seq<T>, key: T -> string, drop: set<string>)
    requires forall x :: x in s ==> key(x) !in drop
    ensures Keep(s, key, drop) == s
  {
    if s != [] {
      KeepNothing(s[1..], key, drop);
      assert s == [s[0]] + s[1..];
    }
  }

  /** `s.find(x => key(x) === id)`: the first record with that key. */
  function FirstWith<T(==,!new)>(s: seq<T>, key: T -> string, id: string): (r: Option<T>)
    ensures r.Some? <==> exists x :: x in s && key(x) == id
    ensures r.Some? ==> r.value in s && key(r.value) == id
  {
    if s == [] then None
    else if key(s[0]) == id then Some(s[0])
    else FirstWith(s[1..], key, id)
  }

  /** The keys of the records of `s`. */
  function KeySet<T(==,!new)>(s: seq<T>, key: T -> string): set<string> {
    set x | x in s :: key(x)
  }

  /** The keys of a concatenation are the keys of its parts. */
  lemma KeySetAppend<T(!new)>(s: seq<T>, t: seq<T>, key: T -> string)
    ensures KeySet(s + t, key) == KeySet(s, key) + KeySet(t, key)
  {
    forall k | k in KeySet(s + t, key)
      ensures k in KeySet(s, key) + KeySet(t, key)
    {
      var x :| x in s + t && key(x) == k;
    }
  }

  lemma KeySetSingleton<T(!new)>(x: T, key: T -> string)
    ensures KeySet([x], key) == {key(x)}
  {
    assert x in [x];
  }

  /** No two positions of `s` hold records with the same key. */
  predicate UniqueKeys<T>(s: seq<T>, key: T -> string) {
    forall i, j :: 0 <= i < j < |s| ==> key(s[i]) != key(s[j])
  }

  /** Keys are unique across two lists exactly when they are unique in each and
      no key is in both. */
  lemma UniqueKeysAppend<T(!new)>(s: seq<T>, t: seq<T>, key: T -> string)
    ensures UniqueKeys(s + t, key) <==>
      UniqueKeys(s, key) && UniqueKeys(t, key) && KeySet(s, key) !! KeySet(t, key)
  {
    var st := s + t;
    if UniqueKeys(st, key) {
      forall i, j | 0 <= i < j < |s|
        ensures key(s[i]) != key(s[j])
      {
        assert st[i] == s[i] && st[j] == s[j];
      }
      forall i, j | 0 <= i < j < |t|
        ensures key(t[i]) != key(t[j])
      {
        assert st[|s| + i] == t[i] && st[|s| + j] == t[j];
      }
      forall x, y | x in s && y in t
        ensures key(x) != key(y)
      {
        var i :| 0 <= i < |s| && s[i] == x;
        var j :| 0 <= j < |t| && t[j] == y;
        assert st[i] == x && st[|s| + j] == y;
      }
      forall k | k in KeySet(s, key)
        ensures k !in KeySet(t, key)
      {
        var x :| x in s && key(x) == k;
      }
    }
    if UniqueKeys(s, key) && UniqueKeys(t, key) && KeySet(s, key) !! KeySet(t, key) {
      forall i, j | 0 <= i < j < |st|
        ensures key(st[i]) != key(st[j])
      {
        if j < |s| {
          assert st[i] == s[i] && st[j] == s[j];
        } else if i < |s| {
          assert st[i] == s[i];
          assert key(st[i]) in KeySet(s, key);
          assert st[j] == t[j - |s|];
          assert key(st[j]) in KeySet(t, key);
        } else if i >= |s| {
          assert st[i] == t[i - |s|] && st[j] == t[j - |s|];
        }
      }
    }
  }

  /** Filtering keeps keys unique and removes exactly the dropped keys. */
  lemma {:induction false} KeepUnique<T(!new)>(s: seq<T>, key: T -> string, drop: set<string>)
    requires UniqueKeys(s, key)
    ensures UniqueKeys(Keep(s, key, drop), key)
    ensures KeySet(Keep(s, key, drop), key) == KeySet(s, key) - drop
  {
    if s != [] {
      var t := s[1..];
      UniqueTail(s, key);
      KeepUnique(t, key, drop);
      var head := if key(s[0]) in drop then [] else [s[0]];
      UniqueKeysAppend(head, Keep(t, key, drop), key);
      assert Keep(s, key, drop) == head + Keep(t, key, drop);
    }
  }

  lemma InitLast<T>(s: seq<T>)
    requires s != []
    ensures s == s[..|s| - 1] + [s[|s| - 1]]
  {
  }

  /** Dropping the last record keeps keys unique, and no earlier record
      shares the last one's key. */
  lemma UniqueInit<T(!new)>(s: seq<T>, key: T -> string)
    requires UniqueKeys(s, key) && s != []
    ensures UniqueKeys(s[..|s| - 1], key)
    ensures forall x :: x in s[..|s| - 1] ==> key(x) != key(s[|s| - 1])
  {
    var init := s[..|s| - 1];
    forall i, j | 0 <= i < j < |init|
      ensures key(init[i]) != key(init[j])
    {
      assert init[i] == s[i] && init[j] == s[j];
    }
    forall x | x in init
      ensures key(x) != key(s[|s| - 1])
    {
      var i :| 0 <= i < |init| && init[i] == x;
      assert s[i] == x;
    }
  }

  lemma UniqueTail<T(!new)>(s: seq<T>, key: T -> string)
    requires UniqueKeys(s, key) && s != []
    ensures UniqueKeys(s[1..], key)
    ensures KeySet(s, key) == {key(s[0])} + KeySet(s[1..], key)
    ensures key(s[0]) !in KeySet(s[1..], key)
  {
    var t := s[1..];
    forall i, j | 0 <= i < j < |t|
      ensures key(t[i]) != key(t[j])
    {
      assert t[i] == s[i + 1] && t[j] == s[j + 1];
    }
    assert s == [s[0]] + t;
    forall y | y in t
      ensures key(y) != key(s[0])
    {
      var j :| 0 <= j < |t| && t[j] == y;
      assert s[j + 1] == y;
    }
  }

  /** No element occurs twice. */
  predicate NoDuplicates<T(==)>(s: seq<T>) {
    forall i, j :: 0 <= i < j < |s| ==> s[i] != s[j]
  }

  // ---------------------------------------------------------------------------
  // Decimal numbers
  // ---------------------------------------------------------------------------

  predicate IsDigit(c: char) {
    '0' <= c <= '9'
  }

  predicate AllDigits(s: string) {
    forall i :: 0 <= i < |s| ==> IsDigit(s[i])
  }

  function DigitValue(c: char): nat
    requires IsDigit(c)
  {
    c as int - '0' as int
  }

  /** `int(s)` for a run of decimal digits. */
  function DecimalValue(s: string): nat
    requires AllDigits(s)
  {
    if s == [] then 0 else 10 * DecimalValue(s[..|s| - 1]) + DigitValue(s[|s| - 1])
  }

  /** `str(n)`: the decimal digits of `n`, without leading zeros. */
  function Decimal(n: nat): (r: string)
    ensures r != [] && AllDigits(r)
    ensures n < 100 ==> |r| <= 2
  {
    (if n < 10 then "" else Decimal(n / 10)) + [('0' as int + n % 10) as char]
  }

  /** Reading back the digits of `n` gives `n`. */
  lemma {:induction false} DecimalRoundTrip(n: nat)
    ensures DecimalValue(Decimal(n)) == n
  {
    var r := Decimal(n);
    assert r[..|r| - 1] == (if n < 10 then "" else Decimal(n / 10));
    if n >= 10 {
      DecimalRoundTrip(n / 10);
    }
  }

  // ---------------------------------------------------------------------------
  // Characters and strings
  // ---------------------------------------------------------------------------

  /** The ASCII members of JavaScript's `\s` class (also what `trim` strips). */
  predicate IsSpace(c: char) {
    c == ' ' || c == '\t' || c == '\n' || c == '\r' || c == '\U{000B}' || c == '\U{000C}'
  }

  predicate IsBlank(s: string) {
    forall i :: 0 <= i < |s| ==> IsSpace(s[i])
  }

  function TrimStart(s: string): (r: string)
    ensures |r| <= |s| && r == s[|s| - |r|..]
    ensures forall i :: 0 <= i < |s| - |r| ==> IsSpace(s[i])
    ensures r == [] || !IsSpace(r[0])
  {
    if s == [] || !IsSpace(s[0]) then s else TrimStart(s[1..])
  }

  function TrimEnd(s: string): (r: string)
    ensures |r| <= |s| && r == s[..|r|]
    ensures forall i :: |r| <= i < |s| ==> IsSpace(s[i])
    ensures r == [] || !IsSpace(r[|r| - 1])
  {
    if s == [] || !IsSpace(s[|s| - 1]) then s else TrimEnd(s[..|s| - 1])
  }

  /** JavaScript's `String.prototype.trim` (on ASCII whitespace). */
  function Trim(s: string): string {
    TrimEnd(TrimStart(s))
  }

  /** A string trims to the empty string exactly when it is blank. */
  lemma TrimEmptyIffBlank(s: string)
    ensures Trim(s) == "" <==> IsBlank(s)
  {
  }

  /** Trimming only removes characters. */
  lemma TrimChars(s: string)
    ensures forall c :: c in Trim(s) ==> c in s
  {
    var t := TrimStart(s);
    assert forall c :: c in TrimEnd(t) ==> c in t;
    assert forall c :: c in t ==> c in s;
  }

  function LowerChar(c: char): char {
    if 'A' <= c <= 'Z' then (c as int + 32) as char else c
  }

  /** `toLowerCase`, restricted to ASCII letters. */
  function Lower(s: string): string {
    seq(|s|, i requires 0 <= i < |s| => LowerChar(s[i]))
  }

  /** `sub` occurs in `s` starting at index `i`. */
  predicate OccursAt(s: string, sub: string, i: int) {
    0 <= i <= |s| - |sub| && s[i..i + |sub|] == sub
  }

  /** `s.includes(sub)`. */
  predicate Contains(s: string, sub: string) {
    exists i | 0 <= i <= |s| - |sub| :: OccursAt(s, sub, i)
  }

  /** Every string includes the empty string. */
  lemma ContainsEmpty(s: string)
    ensures Contains(s, "")
  {
    assert OccursAt(s, "", 0);
  }

  /** `xs.join(sep)`. */
  function Join(xs: seq<string>, sep: string): string {
    if xs == [] then ""
    else if |xs| == 1 then xs[0]
    else xs[0] + sep + Join(xs[1..], sep)
  }

  /** `s.split(c)` for a one-character separator. */
  function SplitOn(s: string, c: char): (r: seq<string>)
    ensures |r| >= 1
    ensures forall i :: 0 <= i < |r| ==> c !in r[i]
    ensures |r[0]| <= |s| && r[0] == s[..|r[0]|]
  {
    if s == [] then [""]
    else
      var rest := SplitOn(s[1..], c);
      assert rest[0] == s[1..][..|rest[0]|];
      if s[0] == c then [""] + rest else [[s[0]] + rest[0]] + rest[1..]
  }

  /** Splitting on `c` and joining again with `c` gives back the string. */
  lemma {:induction false} SplitOnJoin(s: string, c: char)
    ensures Join(SplitOn(s, c), [c]) == s
  {
    if s != [] {
      var rest := SplitOn(s[1..], c);
      SplitOnJoin(s[1..], c);
      if s[0] == c {
        assert SplitOn(s, c) == [""] + rest;
        assert ([""] + rest)[1..] == rest;
      } else {
        var r := [[s[0]] + rest[0]] + rest[1..];
        assert SplitOn(s, c) == r;
        if |rest| == 1 {
          assert Join(r, [c]) == [s[0]] + rest[0];
        } else {
          assert r[1..] == rest[1..];
          assert Join(rest, [c]) == rest[0] + [c] + Join(rest[1..], [c]);
        }
      }
      assert s == [s[0]] + s[1..];
    }
  }

  /** The character classes the sources split text on: `\s` and `[.!?]`. */
  datatype CharClass = Whitespace | Terminators

  predicate InClass(c: char, k: CharClass) {
    match k
    case Whitespace => IsSpace(c)
    case Terminators => c == '.' || c == '!' || c == '?'
  }

  /** The part of `s` after its leading run of characters of class `k`. */
  function SkipRun(s: string, k: CharClass): (r: string)
    ensures |r| <= |s| && r == s[|s| - |r|..]
    ensures forall i :: 0 <= i < |s| - |r| ==> InClass(s[i], k)
    ensures r == [] || !InClass(r[0], k)
  {
    if s == [] || !InClass(s[0], k) then s else SkipRun(s[1..], k)
  }

  /** `s.split(/X+/)` where `X` is the character class `k`. */
  function SplitOnRuns(s: string, k: CharClass): (r: seq<string>)
    ensures |r| >= 1
    ensures forall i, j :: 0 <= i < |r| && 0 <= j < |r[i]| ==> !InClass(r[i][j], k)
    decreases |s|
  {
    if s == [] then [""]
    else if InClass(s[0], k) then [""] + SplitOnRuns(SkipRun(s[1..], k), k)
    else
      var rest := SplitOnRuns(s[1..], k);
      [[s[0]] + rest[0]] + rest[1..]
  }

  /** The pieces of `ps` that are not blank, in order
      (`ps.filter(p => p.trim().length > 0)`). */
  function NonBlank(ps: seq<string>): (r: seq<string>)
    ensures |r| <= |ps|
    ensures forall p :: p in r <==> p in ps && Trim(p) != ""
  {
    if ps == [] then []
    else (if Trim(ps[0]) != "" then [ps[0]] else []) + NonBlank(ps[1..])
  }

  /** Positions `i < j` of `s` hold newlines with only whitespace between
      them: a match of the regular expression `\n\s*\n` from `i` to `j`. */
  predicate BreakAt(s: string, i: int, j: int) {
    0 <= i < j < |s| && s[i] == '\n' && s[j] == '\n' &&
    forall k :: i < k < j ==> IsSpace(s[k])
  }

  predicate HasBreak(s: string) {
    exists i, j | 0 <= i < j < |s| :: BreakAt(s, i, j)
  }

  /** Scans the whitespace after the newline `s[0]`; `best` is one past the
      last newline seen so far. */
  function BreakEnd(s: string, i: nat, best: nat): (r: nat)
    requires 1 <= i <= |s| && best <= i && s[0] == '\n'
    requires forall k :: 1 <= k < i ==> IsSpace(s[k])
    requires best == 0 || BreakAt(s, 0, best - 1)
    requires forall j :: j < i && BreakAt(s, 0, j) ==> j < best
    ensures r <= |s|
    ensures r == 0 || BreakAt(s, 0, r - 1)
    ensures forall j :: BreakAt(s, 0, j) ==> j < r
    decreases |s| - i
  {
    if i < |s| && IsSpace(s[i]) then BreakEnd(s, i + 1, if s[i] == '\n' then i + 1 else best)
    else best
  }

  /** The length of the greedy match of `\n\s*\n` at the front of `s`, or 0
      when there is none: the match runs to the last newline of the
      whitespace that follows the first one. */
  function BreakLength(s: string): (r: nat)
    ensures r <= |s|
    ensures r == 0 || BreakAt(s, 0, r - 1)
    ensures forall j :: BreakAt(s, 0, j) ==> j < r
  {
    if s == [] || s[0] != '\n' then 0 else BreakEnd(s, 1, 0)
  }

  /** `s.split(/\n\s*\n/)`: no piece contains a paragraph break. */
  function Paragraphs(s: string): (r: seq<string>)
    ensures |r| >= 1
    ensures |r[0]| <= |s| && r[0] == s[..|r[0]|]
    ensures forall p :: p in r ==> !HasBreak(p)
    ensures forall p, c :: p in r && c in p ==> c in s
    decreases |s|
  {
    if s == [] then [""]
    else
      var n := BreakLength(s);
      if n > 0 then
        var rest := Paragraphs(s[n..]);
        assert forall c :: c in s[n..] ==> c in s;
        [""] + rest
      else
        var rest := Paragraphs(s[1..]);
        var first := [s[0]] + rest[0];
        assert first == s[..|first|] by {
          assert rest[0] == s[1..][..|rest[0]|];
        }
        assert !HasBreak(first) by {
          forall i, j | 0 <= i < j < |first|
            ensures !BreakAt(first, i, j)
          {
            if i == 0 {
              assert forall k :: 0 <= k < |first| ==> first[k] == s[k];
              assert BreakAt(first, 0, j) ==> BreakAt(s, 0, j);
              assert !BreakAt(s, 0, j);
            } else {
              assert rest[0] in rest;
              assert !BreakAt(rest[0], i - 1, j - 1);
              assert forall k :: 1 <= k < |first| ==> first[k] == rest[0][k - 1];
            }
          }
        }
        assert forall c :: c in s[1..] ==> c in s;
        [first] + rest[1..]
  }

  /** `c.repeat(n)`. */
  function Repeat(c: char, n: nat): (r: string)
    ensures |r| == n && forall i :: 0 <= i < n ==> r[i] == c
  {
    if n == 0 then "" else [c] + Repeat(c, n - 1)
  }
}
