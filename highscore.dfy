/**
 * The highscore table of ESPipes: `count` entries of a score and a
 * three-letter name. A score of 0 marks a free slot; lower scores (fewer
 * rounds) are better, and a well-kept table lists the used slots by
 * ascending score before the free ones.
 */
module Highscores {
  import opened Ascii
  import opened Boards

  /** HIGHSCORE_NAME_LENGTH */
  const NameLength := 3

  datatype Entry = Entry(score: u8, name: string)

  /** doesScoreBeatHighscore's test: some slot is free or holds a strictly greater score. */
  predicate Beats(s: seq<Entry>, score: int) {
    exists i :: 0 <= i < |s| && (s[i].score == 0 || score < s[i].score)
  }

  /** The shape of a table: a free slot is followed only by free slots, used slots ascend by score. */
  ghost predicate Shaped(s: seq<Entry>) {
    && (forall i, j :: 0 <= i < j < |s| && s[i].score == 0 ==> s[j].score == 0)
    && (forall i, j :: 0 <= i < j < |s| && s[j].score != 0 ==> s[i].score <= s[j].score)
  }

  predicate HasFreeSlot(s: seq<Entry>) {
    exists i :: 0 <= i < |s| && s[i].score == 0
  }

  /** The index of the first free slot. */
  function FirstFreeSlot(s: seq<Entry>): (k: nat)
    requires HasFreeSlot(s)
    ensures k < |s| && s[k].score == 0
    ensures forall i :: 0 <= i < k ==> s[i].score != 0
  {
    if s[0].score == 0 then 0 else FirstFreeSlot(s[1..]) + 1
  }

  /** The slot the new score is written to: the first one that is free or holds a strictly greater score. */
  function InsertionPoint(s: seq<Entry>, score: int): (k: nat)
    requires Beats(s, score)
    ensures k < |s| && (s[k].score == 0 || score < s[k].score)
    ensures forall i :: 0 <= i < k ==> s[i].score != 0 && s[i].score <= score
  {
    if s[0].score == 0 || score < s[0].score then 0 else InsertionPoint(s[1..], score) + 1
  }

  /** The largest score in a table (0 for the empty table). */
  function MaxScore(s: seq<Entry>): (m: nat)
    ensures forall i :: 0 <= i < |s| ==> s[i].score <= m
    ensures |s| > 0 ==> exists i :: 0 <= i < |s| && s[i].score == m
    ensures |s| == 0 ==> m == 0
  {
    if s == [] then 0
    else
      var m := MaxScore(s[1..]);
      assert forall i :: 1 <= i < |s| ==> s[i] == s[1..][i - 1];
      if s[0].score >= m then s[0].score else m
  }

  /**
   * The table after the insertion loop of handleScore with `pending` in the
   * new entry's place: the pending entry is written to the first free slot
   * (and the loop stops), or swapped with the first entry of a strictly
   * greater score, which then becomes the pending entry.
   */
  function Inserted(s: seq<Entry>, pending: Entry): (r: seq<Entry>)
    ensures |r| == |s|
  {
    if s == [] then []
    else if s[0].score == 0 then [pending] + s[1..]
    else if s[0].score > pending.score then [pending] + Inserted(s[1..], s[0])
    else [s[0]] + Inserted(s[1..], pending)
  }

  /** The entry the insertion loop pushes out of the table: the free slot it overwrote, or the last pending entry. */
  function Dropped(s: seq<Entry>, pending: Entry): (r: Entry)
    ensures r == pending || r in s
  {
    if s == [] then pending
    else if s[0].score == 0 then s[0]
    else if s[0].score > pending.score then Dropped(s[1..], s[0])
    else Dropped(s[1..], pending)
  }

  /** The loop exchanges exactly one entry: the new one comes in, the dropped one goes out. */
  lemma {:induction false} InsertedExchange(s: seq<Entry>, pending: Entry)
    ensures multiset(Inserted(s, pending)) + multiset{Dropped(s, pending)} == multiset(s) + multiset{pending}
    decreases |s|
  {
    if s != [] {
      var t := s[1..];
      assert s == [s[0]] + t;
      assert multiset(s) == multiset{s[0]} + multiset(t);
      if s[0].score == 0 {
        assert Inserted(s, pending) == [pending] + t;
      } else {
        var next := if s[0].score > pending.score then s[0] else pending;
        var kept := if s[0].score > pending.score then pending else s[0];
        assert Inserted(s, pending) == [kept] + Inserted(t, next);
        assert Dropped(s, pending) == Dropped(t, next);
        InsertedExchange(t, next);
        var a := multiset(Inserted(t, next));
        calc {
          multiset(Inserted(s, pending)) + multiset{Dropped(s, pending)};
          multiset{kept} + a + multiset{Dropped(t, next)};
          multiset{kept} + (a + multiset{Dropped(t, next)});
          multiset{kept} + (multiset(t) + multiset{next});
          multiset(s) + multiset{pending};
        }
      }
    }
  }

  /** Every entry of the new table was in the old table or is the new one. */
  lemma {:induction false} InsertedEntriesComeFrom(s: seq<Entry>, pending: Entry, x: Entry)
    requires x in Inserted(s, pending)
    ensures x in s || x == pending
  {
    InsertedExchange(s, pending);
    assert x in multiset(Inserted(s, pending));
    assert x in multiset(s) + multiset{pending};
  }

  /** A score that does not qualify leaves the table exactly as it was, and the new entry is the one dropped. */
  lemma {:induction false} NoQualificationNoChange(s: seq<Entry>, pending: Entry)
    requires !Beats(s, pending.score)
    ensures Inserted(s, pending) == s && Dropped(s, pending) == pending
  {
    if s != [] {
      forall i | 0 <= i < |s[1..]|
        ensures !(s[1..][i].score == 0 || pending.score < s[1..][i].score)
      {
        assert s[1..][i] == s[i + 1];
      }
      NoQualificationNoChange(s[1..], pending);
    }
  }

  /**
   * A qualifying entry lands at the insertion point; every entry before it
   * (the used slots with a score not above the new one, equal scores among
   * them) keeps its place.
   */
  lemma {:induction false} QualifyingEntryIsPlaced(s: seq<Entry>, pending: Entry)
    requires Beats(s, pending.score)
    ensures var k := InsertionPoint(s, pending.score);
      && Inserted(s, pending)[..k] == s[..k]
      && Inserted(s, pending)[k] == pending
  {
    if !(s[0].score == 0 || pending.score < s[0].score) {
      var k := InsertionPoint(s, pending.score);
      assert Beats(s[1..], pending.score) by {
        assert s[1..][k - 1] == s[k];
      }
      QualifyingEntryIsPlaced(s[1..], pending);
      assert Inserted(s, pending) == [s[0]] + Inserted(s[1..], pending);
    }
  }

  /** With a free slot, the dropped entry is the first free slot: every used entry survives. */
  lemma {:induction false} DroppedIsFirstFreeSlot(s: seq<Entry>, pending: Entry)
    requires HasFreeSlot(s)
    ensures Dropped(s, pending) == s[FirstFreeSlot(s)]
  {
    if s[0].score != 0 {
      var k := FirstFreeSlot(s);
      assert HasFreeSlot(s[1..]) by {
        assert s[1..][k - 1] == s[k];
      }
      if s[0].score > pending.score {
        DroppedIsFirstFreeSlot(s[1..], s[0]);
      } else {
        DroppedIsFirstFreeSlot(s[1..], pending);
      }
    }
  }

  /** Without a free slot, the dropped entry carries the largest score of the table and the new entry. */
  lemma {:induction false} DroppedHasLargestScore(s: seq<Entry>, pending: Entry)
    requires !HasFreeSlot(s)
    ensures Dropped(s, pending).score == if pending.score >= MaxScore(s) then pending.score else MaxScore(s)
  {
    if s != [] {
      forall i | 0 <= i < |s[1..]|
        ensures s[1..][i].score != 0
      {
        assert s[1..][i] == s[i + 1];
      }
      if s[0].score > pending.score {
        DroppedHasLargestScore(s[1..], s[0]);
      } else {
        DroppedHasLargestScore(s[1..], pending);
      }
    }
  }

  /**
   * Without a free slot, and with a new score below the table's largest,
   * the entry pushed out is the first one holding the largest score: a
   * later entry with the same score is never swapped, as the test is a
   * strict `>`.
   */
  lemma {:induction false} DroppedIsFirstLargest(s: seq<Entry>, pending: Entry)
    requires !HasFreeSlot(s) && pending.score < MaxScore(s)
    ensures exists k :: 0 <= k < |s| && Dropped(s, pending) == s[k] && s[k].score == MaxScore(s)
                        && forall i :: 0 <= i < k ==> s[i].score < MaxScore(s)
  {
    var t := s[1..];
    forall i | 0 <= i < |t|
      ensures t[i].score != 0
    {
      assert t[i] == s[i + 1];
    }
    if s[0].score == MaxScore(s) {
      NoQualificationNoChange(t, s[0]);
      assert Dropped(s, pending) == s[0];
    } else {
      assert MaxScore(s) == MaxScore(t);
      var next := if s[0].score > pending.score then s[0] else pending;
      assert Dropped(s, pending) == Dropped(t, next);
      DroppedIsFirstLargest(t, next);
      var k :| 0 <= k < |t| && Dropped(t, next) == t[k] && t[k].score == MaxScore(t)
               && forall i :: 0 <= i < k ==> t[i].score < MaxScore(t);
      assert s[k + 1] == t[k];
      forall i | 0 <= i < k + 1
        ensures s[i].score < MaxScore(s)
      {
        if i > 0 {
          assert s[i] == t[i - 1];
        }
      }
    }
  }

  lemma {:induction false} ShapedTail(s: seq<Entry>)
    requires Shaped(s) && |s| > 0
    ensures Shaped(s[1..])
  {
    var t := s[1..];
    assert forall i :: 0 <= i < |t| ==> t[i] == s[i + 1];
  }

  lemma {:induction false} ShapedCons(x: Entry, t: seq<Entry>)
    requires Shaped(t)
    requires x.score == 0 ==> forall j :: 0 <= j < |t| ==> t[j].score == 0
    requires forall j :: 0 <= j < |t| && t[j].score != 0 ==> x.score <= t[j].score
    ensures Shaped([x] + t)
  {
    var s := [x] + t;
    assert forall i :: 1 <= i < |s| ==> s[i] == t[i - 1];
  }

  /** Inserting a score of at least 1 keeps the table in shape. */
  lemma {:induction false} InsertionKeepsShape(s: seq<Entry>, pending: Entry)
    requires Shaped(s) && pending.score >= 1
    ensures Shaped(Inserted(s, pending))
  {
    if s != [] {
      var t := s[1..];
      ShapedTail(s);
      assert forall j :: 0 <= j < |t| ==> t[j] == s[j + 1];
      if s[0].score == 0 {
        ShapedCons(pending, t);
      } else if s[0].score > pending.score {
        InsertionKeepsShape(t, s[0]);
        var r := Inserted(t, s[0]);
        forall j | 0 <= j < |r| && r[j].score != 0
          ensures pending.score <= r[j].score
        {
          InsertedEntriesComeFrom(t, s[0], r[j]);
        }
        ShapedCons(pending, r);
      } else {
        InsertionKeepsShape(t, pending);
        var r := Inserted(t, pending);
        forall j | 0 <= j < |r| && r[j].score != 0
          ensures s[0].score <= r[j].score
        {
          InsertedEntriesComeFrom(t, pending, r[j]);
        }
        ShapedCons(s[0], r);
      }
    }
  }

  /** In a table in shape without free slots, the last entry has the largest score. */
  lemma {:induction false} LastIsLargest(s: seq<Entry>)
    requires Shaped(s) && !HasFreeSlot(s) && |s| > 0
    ensures MaxScore(s) == s[|s| - 1].score
  {
    var i :| 0 <= i < |s| && s[i].score == MaxScore(s);
    if i < |s| - 1 {
      assert s[|s| - 1].score != 0;
    }
  }

  /**
   * handleScore's insertion on a table in shape, for a qualifying score of
   * at least 1: the table keeps its size and its shape, and holds the new
   * entry behind every entry of a lower or equal score. With a free slot,
   * exactly that slot is given up and every used entry survives; without
   * one, exactly one entry with the table's largest score is dropped.
   */
  lemma {:induction false} InsertionOnShapedTable(s: seq<Entry>, e: Entry)
    requires Shaped(s) && e.score >= 1 && Beats(s, e.score)
    ensures |Inserted(s, e)| == |s| && Shaped(Inserted(s, e))
    ensures e in Inserted(s, e)
    ensures forall i :: 0 <= i < InsertionPoint(s, e.score) ==> Inserted(s, e)[i] == s[i] && s[i].score <= e.score
    ensures HasFreeSlot(s) ==>
              multiset(Inserted(s, e)) == multiset(s) - multiset{s[FirstFreeSlot(s)]} + multiset{e}
    ensures !HasFreeSlot(s) ==>
              var d := Dropped(s, e);
              && d in s && d.score == s[|s| - 1].score
              && multiset(Inserted(s, e)) == multiset(s) - multiset{d} + multiset{e}
  {
    InsertionKeepsShape(s, e);
    QualifyingEntryIsPlaced(s, e);
    var k := InsertionPoint(s, e.score);
    assert Inserted(s, e)[k] == e;
    forall i | 0 <= i < k
      ensures Inserted(s, e)[i] == s[i]
    {
      assert Inserted(s, e)[..k][i] == s[..k][i];
    }
    InsertedExchange(s, e);
    if HasFreeSlot(s) {
      DroppedIsFirstFreeSlot(s, e);
      assert s[FirstFreeSlot(s)] in multiset(s);
      ExchangeInMultiset(multiset(Inserted(s, e)), multiset(s), s[FirstFreeSlot(s)], e);
    } else {
      DroppedHasLargestScore(s, e);
      LastIsLargest(s);
      var d := Dropped(s, e);
      assert e.score < MaxScore(s);
      assert d != e;
      assert d in multiset(s) + multiset{e};
      ExchangeInMultiset(multiset(Inserted(s, e)), multiset(s), d, e);
    }
  }

  lemma ExchangeInMultiset(a: multiset<Entry>, b: multiset<Entry>, d: Entry, e: Entry)
    requires a + multiset{d} == b + multiset{e} && d in b
    ensures a == b - multiset{d} + multiset{e}
  {
    assert forall x :: a[x] == (b - multiset{d} + multiset{e})[x] by {
      forall x ensures a[x] == (b - multiset{d} + multiset{e})[x] {
        assert (a + multiset{d})[x] == (b + multiset{e})[x];
      }
    }
  }

  /** Two tied entries behind the insertion point can change places: the table [A 5, B 5, C 7] with X 3 becomes [X 3, B 5, A 5]. */
  lemma TiesBehindTheInsertionPointMaySwap()
    ensures Inserted([Entry(5, "AAA"), Entry(5, "BBB"), Entry(7, "CCC")], Entry(3, "XXX"))
            == [Entry(3, "XXX"), Entry(5, "BBB"), Entry(5, "AAA")]
  {
  }

  /**
   * Worked examples: 5 into [3, empty, empty] lands in the first empty
   * slot; 1 into [3, 5, empty] goes first and pushes 5 into the empty slot;
   * 9 does not qualify for the full table [1, 2, 3].
   */
  lemma InsertionExamples()
    ensures Inserted([Entry(3, "AAA"), Entry(0, ""), Entry(0, "")], Entry(5, "BBB"))
            == [Entry(3, "AAA"), Entry(5, "BBB"), Entry(0, "")]
    ensures Inserted([Entry(3, "AAA"), Entry(5, "BBB"), Entry(0, "")], Entry(1, "CCC"))
            == [Entry(1, "CCC"), Entry(3, "AAA"), Entry(5, "BBB")]
    ensures !Beats([Entry(1, "AAA"), Entry(2, "BBB"), Entry(3, "CCC")], 9)
  {
  }

  /** The name check of beatHighscore: exactly three characters, each an upper-case letter after toupper. */
  predicate IsValidName(name: string) {
    |name| == NameLength && forall i :: 0 <= i < |name| ==> IsUpper(ToUpper(name[i]))
  }

  /** The accepted names are the three-letter ASCII words, in either case. */
  lemma {:induction false} ValidNamesAreLetters(name: string)
    ensures IsValidName(name) <==> |name| == 3 && forall i :: 0 <= i < |name| ==> IsLower(name[i]) || IsUpper(name[i])
  {
    if |name| == 3 {
      forall i | 0 <= i < 3
        ensures IsUpper(ToUpper(name[i])) <==> IsLower(name[i]) || IsUpper(name[i])
      {
        if !IsLower(name[i]) && !IsUpper(name[i]) {
          assert ToUpper(name[i]) == name[i];
        }
      }
    }
  }

  /**
   * The check beatHighscore runs on a line read from the player: strlen ==
   * 3, then toupper on each character in place, stopping at the first that
   * is not an upper-case letter. A valid name is stored upper-cased.
   */
  method CheckName(line: string) returns (valid: bool, name: string)
    ensures valid == IsValidName(CString(line))
    ensures valid ==> name == seq(NameLength, i requires 0 <= i < NameLength => ToUpper(CString(line)[i]))
    ensures valid ==> forall i :: 0 <= i < |name| ==> IsUpper(name[i])
  {
    name := CString(line);
    valid := false;
    if |name| == NameLength {
      valid := true;
      var i := 0;
      while i < NameLength
        invariant 0 <= i <= NameLength && |name| == NameLength
        invariant valid
        invariant forall j :: 0 <= j < i ==> name[j] == ToUpper(CString(line)[j]) && IsUpper(name[j])
        invariant forall j :: i <= j < NameLength ==> name[j] == CString(line)[j]
      {
        name := name[i := ToUpper(name[i])];
        if name[i] > 'Z' || name[i] < 'A' {
          valid := false;
          break;
        }
        i := i + 1;
      }
    }
  }

  /** One iteration of the insertion loop, on values: how the part still to scan continues the result. */
  lemma {:induction false} InsertionStep(s: seq<Entry>, newEntry: Entry, i: nat, prefix: seq<Entry>, pending: Entry)
    requires i < |s| && prefix + Inserted(s[i..], pending) == Inserted(s, newEntry)
    ensures s[i].score == 0 ==> prefix + [pending] + s[i + 1..] == Inserted(s, newEntry)
    ensures s[i].score != 0 && s[i].score > pending.score ==>
              (prefix + [pending]) + Inserted(s[i + 1..], s[i]) == Inserted(s, newEntry)
    ensures s[i].score != 0 && s[i].score <= pending.score ==>
              (prefix + [s[i]]) + Inserted(s[i + 1..], pending) == Inserted(s, newEntry)
  {
    var t := s[i..];
    assert t[0] == s[i] && t[1..] == s[i + 1..];
  }

  class Highscore {
    /** The table; its length is the file's `count`, a uint8_t. */
    const entries: array<Entry>

    /** The table's length is the file's uint8_t `count`, so it holds at most 255 entries. */
    constructor (table: seq<Entry>)
      requires |table| < 256
      ensures fresh(entries) && entries[..] == table
    {
      entries := new Entry[|table|](i requires 0 <= i < |table| => table[i]);
    }

    /** doesScoreBeatHighscore: scans the table for a free slot or a strictly greater score. */
    method DoesScoreBeatHighscore(score: int) returns (beats: bool)
      ensures beats == Beats(entries[..], score)
    {
      var i := 0;
      while i < entries.Length
        invariant 0 <= i <= entries.Length
        invariant forall j :: 0 <= j < i ==> !(entries[j].score == 0 || score < entries[j].score)
      {
        var entryScore := entries[i].score;
        if entryScore == 0 || score < entryScore {
          return true;
        }
        i := i + 1;
      }
      return false;
    }

    /** The insertion loop of handleScore. */
    method InsertEntry(newEntry: Entry)
      modifies entries
      ensures entries[..] == Inserted(old(entries[..]), newEntry)
    {
      ghost var s := entries[..];
      var pending := newEntry;
      var i := 0;
      while i < entries.Length
        invariant 0 <= i <= entries.Length
        invariant entries[i..] == s[i..]
        invariant entries[..i] + Inserted(s[i..], pending) == Inserted(s, newEntry)
      {
        InsertionStep(s, newEntry, i, entries[..i], pending);
        var entryScore := entries[i].score;
        if entryScore == 0 {
          entries[i] := pending;
          assert entries[..] == entries[..i] + [pending] + s[i + 1..];
          break;
        } else if entryScore > pending.score {
          var tmp := entries[i];
          entries[i] := pending;
          pending := tmp;
        }
        assert entries[..i + 1] == entries[..i] + [entries[i]];
        i := i + 1;
      }
    }

    /**
     * handleScore without its printing: a qualifying score is entered under
     * the name the player gave, any other leaves the table unchanged.
     */
    method HandleScore(score: int, name: string)
      requires 1 <= score <= 255 && |name| == NameLength
      modifies entries
      ensures old(Beats(entries[..], score)) ==> entries[..] == Inserted(old(entries[..]), Entry(score, name))
      ensures !old(Beats(entries[..], score)) ==> entries[..] == old(entries[..])
    {
      var beats := DoesScoreBeatHighscore(score);
      if beats {
        InsertEntry(Entry(score, name));
      }
    }
  }
}
