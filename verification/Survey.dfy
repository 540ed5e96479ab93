/** What the survey modules share: question types, text trimming and sorting by
    order number. */
module Survey {

  datatype QuestionType = SINGLE_CHOICE | MULTI_CHOICE | SCALE | SHORT_ANSWER | NARRATIVE | ETC

  predicate IsChoiceType(t: QuestionType) {
    t == SINGLE_CHOICE || t == MULTI_CHOICE
  }

  const SCALE_MIN := 1
  const SCALE_MAX := 5

  // ---------------------------------------------------------------- text

  /** The characters String.prototype.trim removes. */
  predicate IsSpace(c: char) {
    || '\t' <= c <= '\r' || c == ' ' || c == '\U{00A0}' || c == '\U{1680}'
    || '\U{2000}' <= c <= '\U{200A}' || c == '\U{2028}' || c == '\U{2029}' || c == '\U{202F}'
    || c == '\U{205F}' || c == '\U{3000}' || c == '\U{FEFF}'
  }

  function TrimStart(s: string): string {
    if s != [] && IsSpace(s[0]) then TrimStart(s[1..]) else s
  }

  function Trim(s: string): string {
    TrimEnd(TrimStart(s))
  }

  function TrimEnd(s: string): string {
    if s != [] && IsSpace(s[|s| - 1]) then TrimEnd(s[..|s| - 1]) else s
  }

  /** `!s.trim()`. */
  predicate Blank(s: string) {
    Trim(s) == []
  }

  /** They are the white space and line terminators of section 12 of ECMA-262. */
  lemma SpacesByNumber(c: char)
    ensures IsSpace(c)
       <==> c as int in {9, 10, 11, 12, 13, 32, 160, 5760, 8192, 8193, 8194, 8195, 8196, 8197, 8198, 8199, 8200, 8201,
                         8202, 8232, 8233, 8239, 8287, 12288, 65279}
  {
  }

  /** Trimming takes away the spaces at both ends, and nothing else. */
  lemma TrimMeaning(s: string) returns (from: nat, to: nat)
    ensures from <= to <= |s| && Trim(s) == s[from..to]
    ensures forall i :: 0 <= i < from || to <= i < |s| ==> IsSpace(s[i])
    ensures Trim(s) != [] ==> !IsSpace(s[from]) && !IsSpace(s[to - 1])
  {
    hide IsSpace;
    from := TrimStartMeaning(s);
    var end := TrimEndMeaning(s[from..]);
    to := from + end;
    assert s[from..][..end] == s[from..to];
    forall i | to <= i < |s|
      ensures IsSpace(s[i])
    {
      assert s[from..][i - from] == s[i];
    }
    if end > 0 {
      assert s[from..][end - 1] == s[to - 1];
    }
  }

  /** Blank text is nothing but spaces. */
  lemma BlankMeaning(s: string)
    ensures Blank(s) <==> forall i :: 0 <= i < |s| ==> IsSpace(s[i])
  {
    hide IsSpace, Trim;
    var from, to := TrimMeaning(s);
    if from < to {
      assert !IsSpace(s[from]);
    }
  }

  lemma {:induction false} TrimStartMeaning(s: string) returns (from: nat)
    ensures from <= |s| && TrimStart(s) == s[from..]
    ensures (forall i :: 0 <= i < from ==> IsSpace(s[i])) && (from < |s| ==> !IsSpace(s[from]))
  {
    hide IsSpace;
    if s != [] && IsSpace(s[0]) {
      var rest := TrimStartMeaning(s[1..]);
      from := rest + 1;
      forall i | 1 <= i < from
        ensures IsSpace(s[i])
      {
        assert s[i] == s[1..][i - 1];
      }
    } else {
      from := 0;
    }
  }

  lemma {:induction false} TrimEndMeaning(s: string) returns (to: nat)
    ensures to <= |s| && TrimEnd(s) == s[..to]
    ensures (forall i :: to <= i < |s| ==> IsSpace(s[i])) && (to > 0 ==> !IsSpace(s[to - 1]))
  {
    hide IsSpace;
    if s != [] && IsSpace(s[|s| - 1]) {
      to := TrimEndMeaning(s[..|s| - 1]);
    } else {
      to := |s|;
    }
  }

  // ---------------------------------------------------------------- sorting

  function InsertBy<T>(key: T -> int, x: T, s: seq<T>): seq<T> {
    if s == [] || key(x) <= key(s[0]) then [x] + s else [s[0]] + InsertBy(key, x, s[1..])
  }

  /** `[...s].sort((a, b) => a.orderNo - b.orderNo)`. */
  function SortBy<T>(key: T -> int, s: seq<T>): seq<T> {
    if s == [] then [] else InsertBy(key, s[0], SortBy(key, s[1..]))
  }

  ghost predicate Increasing<T>(key: T -> int, s: seq<T>) {
    forall i, j :: 0 <= i < j < |s| ==> key(s[i]) < key(s[j])
  }

  ghost predicate NonDecreasing<T>(key: T -> int, s: seq<T>) {
    forall i, j :: 0 <= i < j < |s| ==> key(s[i]) <= key(s[j])
  }

  lemma {:induction false} InsertBySorts<T>(key: T -> int, x: T, s: seq<T>)
    requires NonDecreasing(key, s)
    ensures NonDecreasing(key, InsertBy(key, x, s)) && multiset(InsertBy(key, x, s)) == multiset(s) + multiset{x}
  {
    if s != [] && key(x) > key(s[0]) {
      assert s == [s[0]] + s[1..];
      InsertBySorts(key, x, s[1..]);
      ConsKeepsOrder(key, s[0], s[1..], x, InsertBy(key, x, s[1..]));
    }
  }

  lemma ConsKeepsOrder<T>(key: T -> int, first: T, rest: seq<T>, x: T, r: seq<T>)
    requires NonDecreasing(key, [first] + rest) && key(first) <= key(x)
    requires NonDecreasing(key, r) && multiset(r) == multiset(rest) + multiset{x}
    ensures NonDecreasing(key, [first] + r)
    ensures multiset([first] + r) == multiset([first] + rest) + multiset{x}
  {
    var all := [first] + rest;
    forall k | 0 <= k < |r|
      ensures key(first) <= key(r[k])
    {
      assert r[k] in multiset(r);
      if r[k] != x {
        assert r[k] in rest;
        var i :| 0 <= i < |rest| && rest[i] == r[k];
        assert all[i + 1] == r[k] && all[0] == first;
      }
    }
  }

  lemma {:induction false} SortBySorts<T>(key: T -> int, s: seq<T>)
    ensures NonDecreasing(key, SortBy(key, s)) && multiset(SortBy(key, s)) == multiset(s)
  {
    if s != [] {
      SortBySorts(key, s[1..]);
      InsertBySorts(key, s[0], SortBy(key, s[1..]));
      assert s == [s[0]] + s[1..];
    }
  }

  /** Rows with distinct order numbers sort to one list, in whatever order the
      database hands them out. */
  lemma SortOfNumbered<T>(key: T -> int, s: seq<T>, shuffled: seq<T>)
    requires Increasing(key, s) && multiset(shuffled) == multiset(s)
    ensures SortBy(key, shuffled) == s
  {
    SortBySorts(key, shuffled);
    SortedIsUnique(key, s, SortBy(key, shuffled));
  }

  lemma SameFirst<T>(key: T -> int, s: seq<T>, r: seq<T>)
    requires Increasing(key, s) && NonDecreasing(key, r) && multiset(r) == multiset(s) && s != []
    ensures r != [] && r[0] == s[0]
  {
    assert s[0] in multiset(r);
    assert r[0] in multiset(s);
    var i :| 0 <= i < |r| && r[i] == s[0];
    var j :| 0 <= j < |s| && s[j] == r[0];
    assert key(r[0]) <= key(r[i]);
    assert key(s[0]) <= key(s[j]);
  }

  lemma SameRest<T>(s: seq<T>, r: seq<T>)
    requires s != [] && r != [] && r[0] == s[0] && multiset(r) == multiset(s)
    ensures multiset(r[1..]) == multiset(s[1..])
  {
    assert r == [r[0]] + r[1..] && s == [s[0]] + s[1..];
    assert multiset(r[1..]) == multiset(r) - multiset{r[0]};
  }

  lemma {:induction false} SortedIsUnique<T>(key: T -> int, s: seq<T>, r: seq<T>)
    requires Increasing(key, s) && NonDecreasing(key, r) && multiset(r) == multiset(s)
    ensures r == s
    decreases |s|
  {
    if s == [] {
      assert |r| == |multiset(r)|;
    } else {
      SameFirst(key, s, r);
      SameRest(s, r);
      SortedIsUnique(key, s[1..], r[1..]);
      assert r == [r[0]] + r[1..] && s == [s[0]] + s[1..];
    }
  }
}
