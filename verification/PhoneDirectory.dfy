/** The kernel module's phone directory: a list that grows at its head. */
module PhoneDirectory {
  import opened Bytes
  import opened Namespace

  const NAME_LEN := 128
  const EMAIL_LEN := 64
  const PHONE_LEN := 64
  const NAME_AT := NAME_LEN
  const EMAIL_AT := 2 * NAME_LEN
  const PHONE_AT := EMAIL_AT + EMAIL_LEN
  const RECORD_SIZE := PHONE_AT + PHONE_LEN + 4   // with the age

  /** The last bytes of the four string fields. */
  const LAST_BYTES: set<int> := {NAME_AT - 1, EMAIL_AT - 1, PHONE_AT - 1, PHONE_AT + PHONE_LEN - 1}

  /** A struct phonedir_record as it lies in memory. */
  type Record = r: seq<byte> | |r| == RECORD_SIZE witness seq(RECORD_SIZE, _ => 0)

  /** A record whose four strings end inside their fields. */
  ghost predicate IsSealed(r: Record) {
    forall i :: i in LAST_BYTES ==> r[i] == 0
  }

  function Surname(r: Record): seq<byte> { CString(r[..NAME_LEN]) }

  /** The record as it is kept. */
  function Sealed(r: Record): (s: Record)
    ensures IsSealed(s) && s[127] == 0 && s[255] == 0 && s[319] == 0 && s[383] == 0
    ensures forall i :: 0 <= i < 388 && i != 127 && i != 255 && i != 319 && i != 383 ==> s[i] == r[i]
  {
    r[NAME_AT - 1 := 0][EMAIL_AT - 1 := 0][PHONE_AT + PHONE_LEN - 1 := 0][PHONE_AT - 1 := 0]
  }

  /** A record bears a surname if its first bytes are those of the surname and a NUL. */
  lemma Bears(r: Record, s: seq<byte>)
    requires 0 !in s && |s| < 128
    ensures Surname(r) == s <==> r[..|s|] == s && r[|s|] == 0
  {
    hide CString;
    assert r[..128][..|s|] == r[..|s|];
    if Surname(r) == s {
      CStringSplit(r[..128], s);
    }
    if r[..|s|] == s && r[|s|] == 0 {
      CStringPrefix(s, r[|s|..128]);
      assert r[..128] == s + r[|s|..128];
    }
  }

  /** No record that was sealed bears a longer one. */
  lemma BearsNoLonger(r: Record, s: seq<byte>)
    requires IsSealed(r) && 128 <= |s|
    ensures Surname(r) != s
  {
    assert NAME_AT - 1 in LAST_BYTES && r[127] == 0;
    CStringShort(r[..128], 127);
  }

  // ---- The directory over its history ----

  function Matching(rs: seq<Record>, surname: seq<byte>): seq<Record> {
    if rs == [] then [] else
      Matching(rs[..|rs| - 1], surname) +
      if Surname(rs[|rs| - 1]) == surname then [rs[|rs| - 1]] else []
  }

  function Without(rs: seq<Record>, surname: seq<byte>): seq<Record> {
    if rs == [] then [] else
      Without(rs[..|rs| - 1], surname) +
      if Surname(rs[|rs| - 1]) == surname then [] else [rs[|rs| - 1]]
  }

  datatype Event = Add(record: Record) | Delete(surname: seq<byte>)

  /** The live records after a history, the oldest first. */
  function Live(history: seq<Event>): seq<Record> {
    if history == [] then [] else
      var before := Live(history[..|history| - 1]);
      match history[|history| - 1]
      case Add(r) => before + [Sealed(r)]
      case Delete(surname) => Without(before, surname)
  }

  /** The records of that surname added since it was last deleted, in the order they were added. */
  function Since(history: seq<Event>, surname: seq<byte>): seq<Record> {
    if history == [] then [] else
      var before := Since(history[..|history| - 1], surname);
      match history[|history| - 1]
      case Add(r) => before + if Surname(Sealed(r)) == surname then [Sealed(r)] else []
      case Delete(s) => if s == surname then [] else before
  }

  /** One more record, looked at byte by byte: where its first bytes are the surname and a NUL, or fill the
      field up to its last byte, which is cleared, it is the last match. */
  lemma SinceAdd(history: seq<Event>, r: Record, s: seq<byte>)
    requires 0 !in s && |s| < 128
    ensures Since(history + [Add(r)], s) ==
            Since(history, s) + if r[..|s|] == s && (|s| == 127 || r[|s|] == 0) then [Sealed(r)] else []
  {
    hide Surname, Sealed;
    assert (history + [Add(r)])[..|history|] == history;
    Bears(Sealed(r), s);
    assert Sealed(r)[..|s|] == r[..|s|];
  }

  /** A deletion takes away all matches of its surname and none of another. */
  lemma SinceDelete(history: seq<Event>, deleted: seq<byte>, s: seq<byte>)
    ensures Since(history + [Delete(deleted)], s) == if deleted == s then [] else Since(history, s)
  {
    assert (history + [Delete(deleted)])[..|history|] == history;
  }

  lemma {:induction false} MatchingHas(rs: seq<Record>, surname: seq<byte>, r: Record)
    ensures r in Matching(rs, surname) <==> r in rs && Surname(r) == surname
    ensures r in Without(rs, surname) <==> r in rs && Surname(r) != surname
  {
    hide Surname;
    if rs != [] {
      MatchingHas(rs[..|rs| - 1], surname, r);
      assert rs == rs[..|rs| - 1] + [rs[|rs| - 1]];
    }
  }

  lemma {:induction false} ReversedHas(rs: seq<Record>, r: Record)
    ensures r in Reversed(rs) <==> r in rs
  {
    if rs != [] {
      ReversedHas(rs[1..], r);
      assert rs == [rs[0]] + rs[1..];
    }
  }

  lemma {:induction false} LiveSealed(history: seq<Event>)
    ensures forall r :: r in Live(history) ==> IsSealed(r)
  {
    hide IsSealed, Sealed;
    if history != [] {
      var before := Live(history[..|history| - 1]);
      LiveSealed(history[..|history| - 1]);
      if history[|history| - 1].Delete? {
        forall r | r in Without(before, history[|history| - 1].surname)
          ensures IsSealed(r)
        {
          MatchingHas(before, history[|history| - 1].surname, r);
        }
      }
    }
  }

  lemma {:induction false} MatchingWithout(rs: seq<Record>, deleted: seq<byte>, surname: seq<byte>)
    ensures Matching(Without(rs, deleted), surname) == if deleted == surname then [] else Matching(rs, surname)
  {
    hide Surname;
    if rs != [] {
      var n := |rs| - 1;
      MatchingWithout(rs[..n], deleted, surname);
      var w := Without(rs[..n], deleted);
      if Surname(rs[n]) == deleted {
        assert Without(rs, deleted) == w;
      } else {
        assert Without(rs, deleted) == w + [rs[n]] && (w + [rs[n]])[..|w|] == w;
      }
    }
  }

  /** After every history, the live records of a surname are those added since its last deletion, in
      insertion order. */
  lemma {:induction false} LiveMatches(history: seq<Event>, surname: seq<byte>)
    ensures Matching(Live(history), surname) == Since(history, surname)
  {
    hide Surname, Sealed;
    if history != [] {
      var before := history[..|history| - 1];
      LiveMatches(before, surname);
      match history[|history| - 1]
      case Add(r) => assert (Live(before) + [Sealed(r)])[..|Live(before)|] == Live(before);
      case Delete(s) => MatchingWithout(Live(before), s, surname);
    }
  }

  function Reversed<T>(s: seq<T>): (r: seq<T>)
    ensures |r| == |s|
  {
    if s == [] then [] else Reversed(s[1..]) + [s[0]]
  }

  lemma {:induction false} ReversedSnoc<T>(s: seq<T>, x: T)
    ensures Reversed(s + [x]) == [x] + Reversed(s)
  {
    if s != [] {
      assert (s + [x])[1..] == s[1..] + [x];
      ReversedSnoc(s[1..], x);
    } else {
      assert [x][1..] == [];
    }
  }

  lemma {:induction false} MatchingCons(r: Record, rs: seq<Record>, surname: seq<byte>)
    ensures Matching([r] + rs, surname) == (if Surname(r) == surname then [r] else []) + Matching(rs, surname)
    ensures Without([r] + rs, surname) == (if Surname(r) == surname then [] else [r]) + Without(rs, surname)
  {
    hide Surname;
    if rs == [] {
      assert [r] + rs == [r] && [r][..0] == [];
    } else {
      var n := |rs| - 1;
      MatchingCons(r, rs[..n], surname);
      assert ([r] + rs)[..n + 1] == [r] + rs[..n];
    }
  }

  /** Reading a list from its head is reading its reverse from the end. */
  lemma ReversedHead(s: seq<Record>, i: nat, surname: seq<byte>)
    requires i < |s|
    ensures Matching(Reversed(s[..i + 1]), surname) ==
            (if Surname(s[i]) == surname then [s[i]] else []) + Matching(Reversed(s[..i]), surname)
    ensures Without(Reversed(s[..i + 1]), surname) ==
            (if Surname(s[i]) == surname then [] else [s[i]]) + Without(Reversed(s[..i]), surname)
  {
    assert s[..i + 1] == s[..i] + [s[i]];
    ReversedSnoc(s[..i], s[i]);
    MatchingCons(s[i], Reversed(s[..i]), surname);
  }

  class Directory {
    var list: seq<Record>             // from the head
    ghost var history: seq<Event>

    ghost predicate Valid()
      reads this
    {
      Reversed(list) == Live(history)
    }

    constructor ()
      ensures Valid() && history == []
    {
      list, history := [], [];
    }

    /** phonedir_add_record seals a copy of the record and puts it at the head. */
    method AddRecord(record: Record)
      requires Valid()
      modifies this
      ensures Valid() && history == old(history) + [Add(record)]
      ensures |list| == |old(list)| + 1 && list[1..] == old(list)
      ensures list[0][127] == 0 && list[0][255] == 0 && list[0][319] == 0 && list[0][383] == 0
      ensures forall i :: 0 <= i < 388 && i != 127 && i != 255 && i != 319 && i != 383 ==> list[0][i] == record[i]
    {
      hide Sealed;
      var entry := record;
      entry := entry[NAME_AT - 1 := 0];
      entry := entry[EMAIL_AT - 1 := 0];
      entry := entry[PHONE_AT + PHONE_LEN - 1 := 0];
      entry := entry[PHONE_AT - 1 := 0];
      SealedIs(record, entry);
      list := [entry] + list;
      history := history + [Add(record)];
      assert list[1..] == old(list) && history[..|history| - 1] == old(history);
    }

    /** phonedir_find copies the matches to the head of a new list: two reversals, and the result is in
        the order of insertion. */
    method Find(surname: seq<byte>) returns (result: seq<Record>)
      requires Valid() && 0 !in surname
      ensures result == Since(history, surname)
      ensures Valid() && history == old(history)
      ensures |surname| < 128 ==>
                forall r: Record :: r in result <==> r in list && r[..|surname|] == surname && r[|surname|] == 0
      ensures 128 <= |surname| ==> forall r: Record :: r !in result
    {
      hide Surname, Reversed, Matching, Live, Since;
      result := [];
      var i := 0;
      FindNothing(list, surname);
      while i < |list|
        invariant i <= |list| && result == Matching(Reversed(list[..i]), surname)
      {
        ReversedHead(list, i, surname);
        if Surname(list[i]) == surname {
          result := [list[i]] + result;
        }
        i := i + 1;
      }
      assert list[..i] == list;
      LiveMatches(history, surname);
      forall r: Record
        ensures |surname| < 128 ==> (r in result <==> r in list && r[..|surname|] == surname && r[|surname|] == 0)
        ensures 128 <= |surname| ==> r !in result
      {
        FoundBytes(list, history, surname, r);
      }
    }

    /** phonedir_del unlinks every match. */
    method Del(surname: seq<byte>)
      requires Valid() && 0 !in surname
      modifies this
      ensures Valid() && history == old(history) + [Delete(surname)]
      ensures |surname| < 128 ==>
                forall r: Record ::
                  r in list <==> r in old(list) && !(r[..|surname|] == surname && r[|surname|] == 0)
      ensures 128 <= |surname| ==> forall r: Record :: r in list <==> r in old(list)
    {
      hide Surname, Reversed, Matching, Without, Live;
      ghost var before := list;
      ghost var done := 0;
      var i := 0;
      FindNothing(before, surname);
      while i < |list|
        invariant i <= |list| && done <= |before| && list[i..] == before[done..]
        invariant Reversed(list[..i]) == Without(Reversed(before[..done]), surname)
        invariant history == old(history)
        decreases |list| - i
      {
        ReversedHead(before, done, surname);
        assert list[i] == list[i..][0] == before[done];
        assert list[i + 1..] == list[i..][1..] == before[done + 1..];
        if Surname(list[i]) == surname {
          assert (list[..i] + list[i + 1..])[..i] == list[..i];
          assert (list[..i] + list[i + 1..])[i..] == list[i + 1..];
          list := list[..i] + list[i + 1..];
        } else {
          assert list[..i + 1] == list[..i] + [list[i]];
          ReversedSnoc(list[..i], list[i]);
          i := i + 1;
        }
        done := done + 1;
      }
      assert before[done..] == [] && before[..done] == before && list[..i] == list;
      history := history + [Delete(surname)];
      LiveDelete(old(history), surname);
      forall r: Record
        ensures |surname| < 128 ==>
                  (r in list <==> r in before && !(r[..|surname|] == surname && r[|surname|] == 0))
        ensures 128 <= |surname| ==> (r in list <==> r in before)
      {
        FoundBytes(before, old(history), surname, r);
        ReversedHas(list, r);
      }
    }

    /** sys_find: a surname of 1 to 127 bytes, and the oldest live record of that surname if there is
        one. Its C string ends at the first NUL. */
    method SysFind(bytes: seq<byte>) returns (found: int, record: Record)
      requires Valid()
      ensures Valid() && history == old(history)
      ensures var matches := Since(history, CString(bytes));
        if |bytes| >= NAME_LEN || |bytes| == 0 then found == EINVAL
        else if matches == [] then found == 0
        else found == 1 && record == matches[0]
      ensures found == 1 ==> var s := CString(bytes);
                |s| < 128 && record in list && record[..|s|] == s && record[|s|] == 0
    {
      hide Since, Live, Reversed;
      record := seq(RECORD_SIZE, _ => 0);
      if |bytes| >= NAME_LEN || |bytes| == 0 {
        return EINVAL, record;
      }
      CStringEnds(bytes);
      var matches := Find(CString(bytes));
      if matches == [] {
        return 0, record;
      }
      return 1, matches[0];
    }
  }

  const EINVAL := -22

  lemma SealedIs(r: Record, s: Record)
    requires s == r[NAME_AT - 1 := 0][EMAIL_AT - 1 := 0][PHONE_AT + PHONE_LEN - 1 := 0][PHONE_AT - 1 := 0]
    ensures s == Sealed(r)
  {
  }

  lemma FoundBytes(list: seq<Record>, history: seq<Event>, surname: seq<byte>, r: Record)
    requires Reversed(list) == Live(history) && 0 !in surname
    ensures |surname| < 128 ==>
              (r in Matching(Reversed(list), surname)
               <==> r in list && r[..|surname|] == surname && r[|surname|] == 0)
    ensures |surname| < 128 ==>
              (r in Without(Reversed(list), surname)
               <==> r in list && !(r[..|surname|] == surname && r[|surname|] == 0))
    ensures 128 <= |surname| ==>
              r !in Matching(Reversed(list), surname) && (r in Without(Reversed(list), surname) <==> r in list)
  {
    hide Surname, Matching, Without, Live, IsSealed, Reversed;
    MatchingHas(Reversed(list), surname, r);
    ReversedHas(list, r);
    if |surname| < 128 {
      Bears(r, surname);
    } else if r in Live(history) {
      LiveSealed(history);
      BearsNoLonger(r, surname);
    }
  }

  lemma FindNothing(rs: seq<Record>, surname: seq<byte>)
    ensures Matching(Reversed(rs[..0]), surname) == [] && Without(Reversed(rs[..0]), surname) == []
    ensures Reversed(rs[..0]) == []
  {
  }

  lemma LiveDelete(history: seq<Event>, surname: seq<byte>)
    ensures Live(history + [Delete(surname)]) == Without(Live(history), surname)
  {
    assert (history + [Delete(surname)])[..|history|] == history;
  }
}
