/** The merge script: it lists the journal's `.txt` files, leaves out the
    merged output file, orders the names naturally (digit runs by their
    numeric value, other text without regard to case) and writes the files'
    contents one after another with a separator line between them. */
module MergeJournal {
  import opened Common
  import opened Sorting

  /** The name of the output file inside the journal folder. */
  const MergedName: string := "merged_journal.txt"

  /** Written between two files: a newline, fifty `=` and a blank line. */
  const Separator: string := "\n" + Repeat('=', 50) + "\n\n"

  lemma SeparatorShape()
    ensures |Separator| == 53
    ensures Separator[0] == '\n' && Separator[51] == '\n' && Separator[52] == '\n'
    ensures forall i :: 1 <= i <= 50 ==> Separator[i] == '='
  {
  }

  // ---------------------------------------------------------------------------
  // Digit runs
  // ---------------------------------------------------------------------------

  predicate NoDigits(s: string) {
    forall i :: 0 <= i < |s| ==> !IsDigit(s[i])
  }

  /** The run of digits at the front of `s`. */
  function TakeDigits(s: string): (r: string)
    ensures |r| <= |s| && r == s[..|r|]
    ensures AllDigits(r)
    ensures |r| == |s| || !IsDigit(s[|r|])
  {
    if s == [] || !IsDigit(s[0]) then [] else [s[0]] + TakeDigits(s[1..])
  }

  /** `re.split(r'(\d+)', s)`: the text between digit runs and the digit runs
      themselves, alternating, starting and ending with a (possibly empty)
      text piece. */
  function SplitDigitRuns(s: string): (r: seq<string>)
    ensures |r| % 2 == 1
    ensures forall i :: 0 <= i < |r| && i % 2 == 0 ==> NoDigits(r[i])
    ensures forall i :: 0 <= i < |r| && i % 2 == 1 ==> r[i] != [] && AllDigits(r[i])
    decreases |s|
  {
    if s == [] then [""]
    else if IsDigit(s[0]) then
      var d := TakeDigits(s);
      var rest := SplitDigitRuns(s[|d|..]);
      assert forall i :: 2 <= i < 2 + |rest| ==> (["", d] + rest)[i] == rest[i - 2];
      ["", d] + rest
    else
      var rest := SplitDigitRuns(s[1..]);
      var first := [s[0]] + rest[0];
      assert NoDigits(first) by {
        forall i | 0 <= i < |first|
          ensures !IsDigit(first[i])
        {
          if i > 0 {
            assert first[i] == rest[0][i - 1];
          }
        }
      }
      [first] + rest[1..]
  }

  /** Concatenating the pieces gives back the name. */
  lemma {:induction false} SplitDigitRunsJoin(s: string)
    ensures Join(SplitDigitRuns(s), "") == s
    decreases |s|
  {
    if s == [] {
    } else if IsDigit(s[0]) {
      var d := TakeDigits(s);
      SplitDigitRunsJoin(s[|d|..]);
      JoinDigitStep(s, d);
    } else {
      SplitDigitRunsJoin(s[1..]);
      JoinTextStep(s);
    }
  }

  lemma JoinDigitStep(s: string, d: string)
    requires s != [] && IsDigit(s[0]) && d == TakeDigits(s)
    requires Join(SplitDigitRuns(s[|d|..]), "") == s[|d|..]
    ensures Join(SplitDigitRuns(s), "") == s
  {
    var rest := SplitDigitRuns(s[|d|..]);
    assert SplitDigitRuns(s) == ["", d] + rest;
    AppendAssoc([""], [d], rest);
    JoinCons("", [d] + rest);
    JoinCons(d, rest);
    assert s == d + s[|d|..];
  }

  lemma JoinTextStep(s: string)
    requires s != [] && !IsDigit(s[0])
    requires Join(SplitDigitRuns(s[1..]), "") == s[1..]
    ensures Join(SplitDigitRuns(s), "") == s
  {
    var rest := SplitDigitRuns(s[1..]);
    SplitTextUnfold(s);
    JoinCons([s[0]] + rest[0], rest[1..]);
    HeadTail(rest);
    JoinCons(rest[0], rest[1..]);
    AppendAssoc([s[0]], rest[0], Join(rest[1..], ""));
    HeadTail(s);
  }

  /** Joining without a separator peels off the first piece. */
  lemma JoinCons(x: string, ps: seq<string>)
    ensures Join([x] + ps, "") == x + Join(ps, "")
  {
    if ps == [] {
      assert [x] + ps == [x];
    } else {
      assert ([x] + ps)[1..] == ps;
    }
  }

  /** A name without digits is a single text piece. */
  lemma {:induction false} SplitNoDigits(s: string)
    requires NoDigits(s)
    ensures SplitDigitRuns(s) == [s]
    decreases |s|
  {
    if s != [] {
      SplitNoDigits(s[1..]);
      assert s == [s[0]] + s[1..];
    }
  }

  lemma {:induction false} TakeAllDigits(d: string, q: string)
    requires AllDigits(d)
    requires q == [] || !IsDigit(q[0])
    ensures TakeDigits(d + q) == d
    decreases |d|
  {
    if d != [] {
      assert (d + q)[1..] == d[1..] + q;
      TakeAllDigits(d[1..], q);
      assert d == [d[0]] + d[1..];
    } else {
      assert d + q == q;
    }
  }

  /** A digit run between two digit-free texts splits into exactly those three
      pieces. */
  lemma {:induction false} SplitAround(p: string, d: string, q: string)
    requires NoDigits(p) && NoDigits(q) && d != [] && AllDigits(d)
    ensures SplitDigitRuns(p + d + q) == [p, d, q]
    decreases |p|
  {
    var s := p + d + q;
    if p == [] {
      assert s == d + q;
      TakeAllDigits(d, q);
      assert s[|d|..] == q;
      SplitNoDigits(q);
    } else {
      assert s[1..] == p[1..] + d + q;
      SplitAround(p[1..], d, q);
      assert [p[0]] + p[1..] == p;
    }
  }

  // ---------------------------------------------------------------------------
  // The natural sort key
  // ---------------------------------------------------------------------------

  /** One element of a sort key: Python's `int` or `str`. */
  datatype KeyPart = Text(text: string) | Num(n: nat)

  /** `int(text) if text.isdigit() else text.lower()`. */
  function KeyOf(p: string): KeyPart {
    if p != [] && AllDigits(p) then Num(DecimalValue(p)) else Text(Lower(p))
  }

  /** `natural_sort_key(filename)`: text and number parts alternate, starting
      and ending with text. */
  function NaturalSortKey(name: string): (r: seq<KeyPart>)
    ensures Alternating(r)
  {
    var parts := SplitDigitRuns(name);
    seq(|parts|, i requires 0 <= i < |parts| => KeyOf(parts[i]))
  }

  /** Texts at even positions and numbers at odd positions, odd in length. */
  predicate Alternating(k: seq<KeyPart>) {
    |k| % 2 == 1 && forall i :: 0 <= i < |k| ==> (k[i].Num? <==> i % 2 == 1)
  }

  /** At every position two keys share, both hold a text or both a number. */
  predicate Aligned(x: seq<KeyPart>, y: seq<KeyPart>) {
    forall i :: 0 <= i < |x| && i < |y| ==> (x[i].Num? <==> y[i].Num?)
  }

  /** Python compares two keys without ever comparing a number with a string,
      which would raise a `TypeError`. */
  lemma KeysAligned(a: string, b: string)
    ensures Aligned(NaturalSortKey(a), NaturalSortKey(b))
  {
  }

  // ---------------------------------------------------------------------------
  // Comparing keys
  // ---------------------------------------------------------------------------

  /** Python's ordering of strings: by code point, a proper prefix first.
      The result is negative, zero or positive. */
  function StrCmp(a: string, b: string): (r: int)
    ensures -1 <= r <= 1
  {
    if a == [] then (if b == [] then 0 else -1)
    else if b == [] then 1
    else if a[0] < b[0] then -1
    else if a[0] > b[0] then 1
    else StrCmp(a[1..], b[1..])
  }

  /** Numbers by value, texts as strings. Python raises a `TypeError` when it
      compares a number with a string; here a text sorts before a number, a
      case `KeysAligned` shows two natural keys never reach. */
  function PartCmp(a: KeyPart, b: KeyPart): (r: int)
    ensures -1 <= r <= 1
  {
    match (a, b)
    case (Num(m), Num(n)) => if m < n then -1 else if m > n then 1 else 0
    case (Text(x), Text(y)) => StrCmp(x, y)
    case (Text(_), Num(_)) => -1
    case (Num(_), Text(_)) => 1
  }

  /** Python's ordering of lists: the first differing element decides, a
      proper prefix comes first. */
  function KeyCmp(x: seq<KeyPart>, y: seq<KeyPart>): (r: int)
    ensures -1 <= r <= 1
  {
    if x == [] then (if y == [] then 0 else -1)
    else if y == [] then 1
    else
      var c := PartCmp(x[0], y[0]);
      if c != 0 then c else KeyCmp(x[1..], y[1..])
  }

  lemma {:induction false} StrCmpFlip(a: string, b: string)
    ensures StrCmp(b, a) == -StrCmp(a, b)
  {
    if a != [] && b != [] && a[0] == b[0] {
      StrCmpFlip(a[1..], b[1..]);
    }
  }

  lemma {:induction false} StrCmpZero(a: string, b: string)
    ensures StrCmp(a, b) == 0 <==> a == b
  {
    if a != [] && b != [] && a[0] == b[0] {
      StrCmpZero(a[1..], b[1..]);
      HeadTail(a);
      HeadTail(b);
    }
  }

  lemma {:induction false} StrCmpTrans(a: string, b: string, c: string)
    requires StrCmp(a, b) <= 0 && StrCmp(b, c) <= 0
    ensures StrCmp(a, c) <= 0
  {
    if a != [] && b != [] && c != [] && a[0] == b[0] == c[0] {
      StrCmpTrans(a[1..], b[1..], c[1..]);
    }
  }

  lemma PartCmpFlip(a: KeyPart, b: KeyPart)
    ensures PartCmp(b, a) == -PartCmp(a, b)
  {
    if a.Text? && b.Text? {
      StrCmpFlip(a.text, b.text);
    }
  }

  lemma PartCmpZero(a: KeyPart, b: KeyPart)
    ensures PartCmp(a, b) == 0 <==> a == b
  {
    if a.Text? && b.Text? {
      StrCmpZero(a.text, b.text);
    }
  }

  lemma PartCmpTrans(a: KeyPart, b: KeyPart, c: KeyPart)
    requires PartCmp(a, b) <= 0 && PartCmp(b, c) <= 0
    ensures PartCmp(a, c) <= 0
  {
    if a.Text? && b.Text? && c.Text? {
      StrCmpTrans(a.text, b.text, c.text);
    }
  }

  /** Swapping the operands negates the comparison. */
  lemma {:induction false} KeyCmpFlip(x: seq<KeyPart>, y: seq<KeyPart>)
    ensures KeyCmp(y, x) == -KeyCmp(x, y)
  {
    if x != [] && y != [] {
      PartCmpFlip(x[0], y[0]);
      if PartCmp(x[0], y[0]) == 0 {
        KeyCmpFlip(x[1..], y[1..]);
      }
    }
  }

  /** Two keys compare equal exactly when they are the same key. */
  lemma {:induction false} KeyCmpZero(x: seq<KeyPart>, y: seq<KeyPart>)
    ensures KeyCmp(x, y) == 0 <==> x == y
  {
    if x != [] && y != [] {
      PartCmpZero(x[0], y[0]);
      KeyCmpZero(x[1..], y[1..]);
      HeadTail(x);
      HeadTail(y);
    }
  }

  /** The key order is transitive. */
  lemma {:induction false} KeyCmpTrans(x: seq<KeyPart>, y: seq<KeyPart>, z: seq<KeyPart>)
    requires KeyCmp(x, y) <= 0 && KeyCmp(y, z) <= 0
    ensures KeyCmp(x, z) <= 0
  {
    if x != [] && y != [] && z != [] {
      PartCmpTrans(x[0], y[0], z[0]);
      if PartCmp(x[0], z[0]) == 0 {
        PartCmpZero(x[0], z[0]);
        PartCmpFlip(x[0], y[0]);
        KeyCmpTrans(x[1..], y[1..], z[1..]);
      }
    }
  }

  /** Key `x` may come before key `y`: Python's `not y < x`. */
  function KeyLeq(x: seq<KeyPart>, y: seq<KeyPart>): bool {
    KeyCmp(x, y) <= 0
  }

  /** The key order orders any two keys, transitively. */
  lemma KeyLeqTotalPreorder()
    ensures TotalPreorder(KeyLeq)
  {
    forall x, y
      ensures KeyLeq(x, y) || KeyLeq(y, x)
    {
      KeyCmpFlip(x, y);
    }
    forall x, y, z | KeyLeq(x, y) && KeyLeq(y, z)
      ensures KeyLeq(x, z)
    {
      KeyCmpTrans(x, y, z);
    }
  }

  /** Name `a` may come before name `b`: its key is not greater. */
  predicate NameLeq(a: string, b: string) {
    KeyLeq(NaturalSortKey(a), NaturalSortKey(b))
  }

  // ---------------------------------------------------------------------------
  // What the natural order promises
  // ---------------------------------------------------------------------------

  lemma NumberedKey(p: string, m: nat, q: string)
    requires NoDigits(p) && NoDigits(q)
    ensures NaturalSortKey(p + Decimal(m) + q) == [Text(Lower(p)), Num(m), Text(Lower(q))]
  {
    SplitAround(p, Decimal(m), q);
    DecimalRoundTrip(m);
    assert p != [] ==> !IsDigit(p[0]);
    assert q != [] ==> !IsDigit(q[0]);
  }

  /** Names that differ only in an embedded number are ordered by the number's
      value, not by its digits as text. */
  lemma NumberedNamesOrder(p: string, q: string, m: nat, n: nat)
    requires NoDigits(p) && NoDigits(q)
    ensures NameLeq(p + Decimal(m) + q, p + Decimal(n) + q) <==> m <= n
  {
    NumberedKey(p, m, q);
    NumberedKey(p, n, q);
    var tail := [Text(Lower(q))];
    var x := [Text(Lower(p)), Num(m)] + tail;
    var y := [Text(Lower(p)), Num(n)] + tail;
    assert NaturalSortKey(p + Decimal(m) + q) == x && NaturalSortKey(p + Decimal(n) + q) == y;
    StrCmpZero(Lower(p), Lower(p));
    assert x[1..] == [Num(m)] + tail && y[1..] == [Num(n)] + tail;
    assert KeyCmp(x, y) == KeyCmp(x[1..], y[1..]);
    assert x[1..][1..] == tail && y[1..][1..] == tail;
    KeyCmpZero(tail, tail);
  }

  /** A shared prefix does not decide a string comparison. */
  lemma {:induction false} StrCmpPrefix(p: string, a: string, b: string)
    ensures StrCmp(p + a, p + b) == StrCmp(a, b)
  {
    if p != [] {
      assert (p + a)[1..] == p[1..] + a && (p + b)[1..] == p[1..] + b;
      StrCmpPrefix(p[1..], a, b);
    } else {
      assert p + a == a && p + b == b;
    }
  }

  /** As plain strings "entry10.txt" comes before "entry2.txt". */
  lemma PlainOrderTenFirst()
    ensures StrCmp("entry10.txt", "entry2.txt") < 0
  {
    StrCmpPrefix("entry", "10.txt", "2.txt");
    assert "entry" + "10.txt" == "entry10.txt";
    assert "entry" + "2.txt" == "entry2.txt";
  }

  /** "entry2.txt" sorts before "entry10.txt", unlike in the plain string
      order of `PlainOrderTenFirst`. */
  lemma TwoBeforeTen()
    ensures NameLeq("entry2.txt", "entry10.txt") && !NameLeq("entry10.txt", "entry2.txt")
  {
    assert Decimal(2) == "2";
    assert Decimal(1) == "1";
    assert Decimal(10) == "10";
    assert "entry" + Decimal(2) + ".txt" == "entry2.txt";
    assert "entry" + Decimal(10) + ".txt" == "entry10.txt";
    NumberedNamesOrder("entry", ".txt", 2, 10);
    NumberedNamesOrder("entry", ".txt", 10, 2);
  }

  lemma LowerAppend(a: string, b: string)
    ensures Lower(a + b) == Lower(a) + Lower(b)
  {
  }

  lemma LowerDigits(d: string)
    requires AllDigits(d)
    ensures Lower(d) == d
  {
  }

  lemma LowerDigitsIff(s: string)
    ensures AllDigits(Lower(s)) <==> AllDigits(s)
    ensures NoDigits(Lower(s)) <==> NoDigits(s)
  {
    assert forall i :: 0 <= i < |s| ==> (IsDigit(Lower(s)[i]) <==> IsDigit(s[i]));
  }

  lemma LowerTwice(s: string)
    ensures Lower(Lower(s)) == Lower(s)
  {
  }

  /** Each piece of `lowered` is the lowercased piece of `parts`. */
  predicate PiecewiseLower(lowered: seq<string>, parts: seq<string>) {
    |lowered| == |parts| && forall i :: 0 <= i < |parts| ==> lowered[i] == Lower(parts[i])
  }

  /** Lowercasing keeps every digit where it is, so it lowercases each piece. */
  lemma {:induction false} SplitLower(s: string)
    ensures PiecewiseLower(SplitDigitRuns(Lower(s)), SplitDigitRuns(s))
    decreases |s|
  {
    if s == [] {
      assert Lower(s) == [];
    } else if IsDigit(s[0]) {
      var d := TakeDigits(s);
      var e := s[|d|..];
      LowerDigitRun(s, d, e);
      SplitLower(e);
      SplitLowerDigitStep(s, d, e);
    } else {
      LowerFront(s);
      SplitLower(s[1..]);
      SplitLowerTextStep(s);
    }
  }

  /** Lowercasing leaves the leading digit run of `s` as it is. */
  lemma LowerDigitRun(s: string, d: string, e: string)
    requires s != [] && d == TakeDigits(s) && e == s[|d|..]
    ensures TakeDigits(Lower(s)) == d && Lower(s)[|d|..] == Lower(e)
  {
    assert s == d + e;
    LowerAppend(d, e);
    LowerDigits(d);
    assert e == [] || !IsDigit(e[0]);
    assert Lower(e) == [] || !IsDigit(Lower(e)[0]);
    TakeAllDigits(d, Lower(e));
  }

  lemma LowerFront(s: string)
    requires s != []
    ensures Lower(s)[0] == LowerChar(s[0]) && Lower(s)[1..] == Lower(s[1..])
    ensures IsDigit(Lower(s)[0]) <==> IsDigit(s[0])
  {
  }

  lemma SplitLowerDigitStep(s: string, d: string, e: string)
    requires s != [] && IsDigit(s[0]) && d == TakeDigits(s) && e == s[|d|..]
    requires TakeDigits(Lower(s)) == d && Lower(s)[|d|..] == Lower(e)
    requires PiecewiseLower(SplitDigitRuns(Lower(e)), SplitDigitRuns(e))
    ensures PiecewiseLower(SplitDigitRuns(Lower(s)), SplitDigitRuns(s))
  {
    LowerFront(s);
    assert SplitDigitRuns(s) == ["", d] + SplitDigitRuns(e);
    assert SplitDigitRuns(Lower(s)) == ["", d] + SplitDigitRuns(Lower(e));
    LowerDigits(d);
    assert Lower("") == "";
    PiecewiseLowerAppend(["", d], ["", d], SplitDigitRuns(Lower(e)), SplitDigitRuns(e));
  }

  lemma PiecewiseLowerAppend(la: seq<string>, a: seq<string>, lb: seq<string>, b: seq<string>)
    requires PiecewiseLower(la, a) && PiecewiseLower(lb, b)
    ensures PiecewiseLower(la + lb, a + b)
  {
    forall i | 0 <= i < |a + b|
      ensures (la + lb)[i] == Lower((a + b)[i])
    {
      if i >= |a| {
        assert (la + lb)[i] == lb[i - |a|] && (a + b)[i] == b[i - |a|];
      }
    }
  }

  lemma SplitLowerTextStep(s: string)
    requires s != [] && !IsDigit(s[0])
    requires Lower(s)[0] == LowerChar(s[0]) && Lower(s)[1..] == Lower(s[1..])
    requires PiecewiseLower(SplitDigitRuns(Lower(s[1..])), SplitDigitRuns(s[1..]))
    ensures PiecewiseLower(SplitDigitRuns(Lower(s)), SplitDigitRuns(s))
  {
    var ls := Lower(s);
    var rest := SplitDigitRuns(s[1..]);
    var lrest := SplitDigitRuns(ls[1..]);
    SplitTextUnfold(s);
    SplitTextUnfold(ls);
    PiecewiseLowerCons(s[0], rest, lrest);
  }

  lemma SplitTextUnfold(s: string)
    requires s != [] && !IsDigit(s[0])
    ensures var rest := SplitDigitRuns(s[1..]);
      SplitDigitRuns(s) == [[s[0]] + rest[0]] + rest[1..]
  {
  }

  lemma PiecewiseLowerCons(c: char, rest: seq<string>, lrest: seq<string>)
    requires rest != [] && PiecewiseLower(lrest, rest)
    ensures PiecewiseLower([[LowerChar(c)] + lrest[0]] + lrest[1..], [[c] + rest[0]] + rest[1..])
  {
    LowerAppend([c], rest[0]);
    assert Lower([c]) == [LowerChar(c)];
    PiecewiseLowerAppend([[LowerChar(c)] + lrest[0]], [[c] + rest[0]], lrest[1..], rest[1..]);
  }

  /** `natural_sort_key` does not see letter case. */
  lemma KeyIgnoresCase(name: string)
    ensures NaturalSortKey(Lower(name)) == NaturalSortKey(name)
  {
    SplitLower(name);
    var parts := SplitDigitRuns(name);
    var k := NaturalSortKey(name);
    var lk := NaturalSortKey(Lower(name));
    forall i | 0 <= i < |parts|
      ensures KeyOf(Lower(parts[i])) == KeyOf(parts[i])
    {
      LowerDigitsIff(parts[i]);
      LowerTwice(parts[i]);
      if parts[i] != [] && AllDigits(parts[i]) {
        LowerDigits(parts[i]);
      }
    }
  }

  /** Names that differ only in case have equal keys, so neither goes first
      and the sort keeps them in listing order. */
  lemma CaseOnlyNamesTie(a: string, b: string)
    requires Lower(a) == Lower(b)
    ensures NaturalSortKey(a) == NaturalSortKey(b)
    ensures NameLeq(a, b) && NameLeq(b, a)
  {
    KeyIgnoresCase(a);
    KeyIgnoresCase(b);
    KeyCmpZero(NaturalSortKey(a), NaturalSortKey(b));
  }

  // ---------------------------------------------------------------------------
  // Choosing and ordering the inputs
  // ---------------------------------------------------------------------------

  /** The `.txt` names the folder listing returned, without the output file. */
  function MergeInputs(listing: seq<string>): (r: seq<string>)
    ensures MergedName !in r
    ensures forall n :: n in r <==> n in listing && n != MergedName
  {
    RemoveAll(listing, MergedName)
  }

  /** A merged file left over in the folder changes nothing: the inputs are
      those of the listing without it. */
  lemma StaleOutputIgnored(listing: seq<string>)
    ensures MergeInputs(listing + [MergedName]) == MergeInputs(listing)
    ensures MergeInputs(MergeInputs(listing)) == MergeInputs(listing)
  {
    RemoveAllAppend(listing, [MergedName], MergedName);
    assert RemoveAll([MergedName], MergedName) == [];
    RemoveAllIdempotent(listing, MergedName);
  }

  /** `txt_files.sort(key=natural_sort_key)`: a stable sort by key. */
  function SortNaturally(names: seq<string>): (r: seq<string>)
    ensures multiset(r) == multiset(names)
    ensures forall i, j :: 0 <= i < j < |r| ==> NameLeq(r[i], r[j])
  {
    KeyLeqTotalPreorder();
    SortByKey(names, NaturalSortKey, KeyLeq)
  }

  /** Names with equal keys keep the order of the listing. */
  lemma SortNaturallyStable(names: seq<string>, k: seq<KeyPart>)
    ensures WithKey(SortNaturally(names), NaturalSortKey, k) == WithKey(names, NaturalSortKey, k)
  {
    KeyLeqTotalPreorder();
    SortByKeyStable(names, NaturalSortKey, KeyLeq, k);
  }

  // ---------------------------------------------------------------------------
  // Merging
  // ---------------------------------------------------------------------------

  /** What the output holds after the first `i` files were written: their
      contents with a separator after each one that is not the last file. */
  function Written(contents: seq<string>, i: nat): string
    requires i <= |contents|
  {
    Join(contents[..i], Separator) + (if 0 < i < |contents| then Separator else "")
  }

  /** Joining one more piece adds a separator and the piece. */
  lemma {:induction false} JoinSnoc(xs: seq<string>, x: string, sep: string)
    ensures Join(xs + [x], sep) == if xs == [] then x else Join(xs, sep) + sep + x
  {
    if |xs| == 1 {
      assert (xs + [x])[1..] == [x];
    } else if |xs| > 1 {
      assert (xs + [x])[1..] == xs[1..] + [x];
      JoinSnoc(xs[1..], x, sep);
    }
  }

  lemma WrittenStep(contents: seq<string>, i: nat)
    requires i < |contents|
    ensures Written(contents, i + 1) ==
      Written(contents, i) + contents[i] + (if i < |contents| - 1 then Separator else "")
  {
    assert contents[..i + 1] == contents[..i] + [contents[i]];
    JoinSnoc(contents[..i], contents[i], Separator);
  }

  /** `merge_files`: writes each file's content and, after every file but the
      last, the separator. */
  method MergeFiles(contents: seq<string>) returns (output: string)
    ensures output == Join(contents, Separator)
  {
    output := "";
    var i := 0;
    while i < |contents|
      invariant 0 <= i <= |contents|
      invariant output == Written(contents, i)
    {
      WrittenStep(contents, i);
      output := output + contents[i];
      if i < |contents| - 1 {
        output := output + Separator;
      }
      i := i + 1;
    }
    assert contents[..i] == contents;
  }

  /** The merged text starts with the first file and ends with the last one:
      there is no separator after the last file. */
  lemma MergedEnds(contents: seq<string>)
    requires contents != []
    ensures var out := Join(contents, Separator);
      var last := contents[|contents| - 1];
      |out| >= |contents[0]| && out[..|contents[0]|] == contents[0] &&
      |out| >= |last| && out[|out| - |last|..] == last
  {
    var init := contents[..|contents| - 1];
    assert contents == init + [contents[|contents| - 1]];
    JoinSnoc(init, contents[|contents| - 1], Separator);
  }

  function TotalLength(contents: seq<string>): nat {
    if contents == [] then 0 else |contents[0]| + TotalLength(contents[1..])
  }

  /** One separator between each two neighbouring files and nowhere else. */
  lemma {:induction false} MergedLength(contents: seq<string>)
    requires contents != []
    ensures |Join(contents, Separator)| == TotalLength(contents) + (|contents| - 1) * |Separator|
  {
    if |contents| > 1 {
      MergedLength(contents[1..]);
    }
  }

  /** The contents of the named files, read in order. */
  function ReadAll(names: seq<string>, read: string -> string): (r: seq<string>)
    ensures |r| == |names| && forall i :: 0 <= i < |names| ==> r[i] == read(names[i])
  {
    seq(|names|, i requires 0 <= i < |names| => read(names[i]))
  }

  /** The script: exclude the output file, sort the names naturally, merge. */
  method MergeFolder(listing: seq<string>, read: string -> string) returns (order: seq<string>, output: string)
    ensures multiset(order) == multiset(MergeInputs(listing))
    ensures forall i, j :: 0 <= i < j < |order| ==> NameLeq(order[i], order[j])
    ensures MergedName !in order
    ensures output == Join(ReadAll(order, read), Separator)
  {
    var inputs := MergeInputs(listing);
    order := SortNaturally(inputs);
    assert forall n :: n in order ==> n in multiset(inputs);
    output := MergeFiles(ReadAll(order, read));
  }
}
