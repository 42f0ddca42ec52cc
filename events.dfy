/** The attendee order of `internal/calendar/events.go`: `sortAttendees`
    sorts a slice of attendees in place with `sort.SliceStable`, by type
    (required, then optional, then resource), then by e-mail and then by
    name, both compared after lower-casing. */
module Events {
  import opened Schema
  import opened Sorting

  /** `typeOrder` in `sortAttendees`. */
  const TypeOrder: map<string, nat> := map[Required := 0, Optional := 1, Resource := 2]

  /** `typeOrder[a.Type]`: a type missing from the map reads as Go's zero
      value, so an unknown type ranks with "required". */
  function TypeRank(kind: string): nat {
    if kind in TypeOrder then TypeOrder[kind] else 0
  }

  /** The rank map knows exactly the valid attendee types, ranks them in
      the documented order, and puts every other string first. */
  lemma TypeRankOrder(kind: string)
    ensures kind in TypeOrder <==> IsValid(kind)
    ensures TypeRank(kind) <= 2
    ensures TypeRank(kind) == 1 <==> kind == Optional
    ensures TypeRank(kind) == 2 <==> kind == Resource
    ensures !IsValid(kind) ==> TypeRank(kind) == TypeRank(Required)
  {
  }

  /** `unicode.ToLower` on the ASCII letters; other characters unchanged. */
  function LowerChar(c: char): char {
    if 'A' <= c <= 'Z' then (c as int + 32) as char else c
  }

  /** `strings.ToLower`, character by character. */
  function ToLower(s: string): (r: string)
    ensures |r| == |s|
  {
    seq(|s|, i requires 0 <= i < |s| => LowerChar(s[i]))
  }

  lemma ToLowerIdempotent(s: string)
    ensures ToLower(ToLower(s)) == ToLower(s)
    ensures forall i :: 0 <= i < |s| ==> !('A' <= ToLower(s)[i] <= 'Z')
  {
  }

  /** Go's `<` on strings: byte-wise on UTF-8, which orders code points the
      same way, so it is the lexicographic order on characters with a
      proper prefix first. */
  function StrLess(a: string, b: string): bool {
    if a == [] then b != []
    else if b == [] then false
    else if a[0] != b[0] then a[0] < b[0]
    else StrLess(a[1..], b[1..])
  }

  lemma {:induction false} StrLessIrreflexive(a: string)
    ensures !StrLess(a, a)
  {
    if a != [] {
      StrLessIrreflexive(a[1..]);
    }
  }

  lemma {:induction false} StrLessTransitive(a: string, b: string, c: string)
    requires StrLess(a, b) && StrLess(b, c)
    ensures StrLess(a, c)
  {
    if a != [] && b != [] && c != [] && a[0] == b[0] && b[0] == c[0] {
      StrLessTransitive(a[1..], b[1..], c[1..]);
    }
  }

  /** Exactly one of `a < b`, `a == b`, `b < a` holds. */
  lemma {:induction false} StrLessTotal(a: string, b: string)
    ensures a == b || StrLess(a, b) || StrLess(b, a)
    ensures !(StrLess(a, b) && StrLess(b, a))
  {
    if a != [] && b != [] && a[0] == b[0] {
      StrLessTotal(a[1..], b[1..]);
      if a[1..] == b[1..] {
        assert a == [a[0]] + a[1..] && b == [b[0]] + b[1..];
      }
    }
  }

  /** The comparator handed to `sort.SliceStable`. */
  function Less(a: Attendee, b: Attendee): bool {
    var typeA, typeB := TypeRank(a.kind), TypeRank(b.kind);
    if typeA != typeB then typeA < typeB
    else
      var emailA, emailB := ToLower(a.email), ToLower(b.email);
      if emailA != emailB then StrLess(emailA, emailB)
      else StrLess(ToLower(a.name), ToLower(b.name))
  }

  /** What the comparator looks at. */
  datatype Key = Key(rank: nat, email: string, name: string)

  function KeyOf(a: Attendee): Key {
    Key(TypeRank(a.kind), ToLower(a.email), ToLower(a.name))
  }

  /** Two attendees the comparator cannot tell apart have equal keys, and
      the other way round. */
  lemma EquivIsSameKey(a: Attendee, b: Attendee)
    ensures Equiv(Less, a, b) <==> KeyOf(a) == KeyOf(b)
  {
    StrLessTotal(ToLower(a.email), ToLower(b.email));
    StrLessTotal(ToLower(a.name), ToLower(b.name));
  }

  lemma LessTransitive(a: Attendee, b: Attendee, c: Attendee)
    requires Less(a, b) && Less(b, c)
    ensures Less(a, c)
  {
    var ka, kb, kc := KeyOf(a), KeyOf(b), KeyOf(c);
    StrLessTotal(ka.email, kb.email);
    StrLessTotal(kb.email, kc.email);
    StrLessTotal(ka.email, kc.email);
    if ka.rank == kb.rank == kc.rank {
      if ka.email == kb.email == kc.email {
        StrLessTransitive(ka.name, kb.name, kc.name);
      } else if ka.email != kb.email && kb.email != kc.email {
        StrLessTransitive(ka.email, kb.email, kc.email);
      }
    }
  }

  /** The comparator meets what `sort.SliceStable` needs of it. */
  lemma LessIsStrictWeakOrder()
    ensures StrictWeakOrder(Less)
  {
    forall a: Attendee
      ensures !Less(a, a)
    {
      StrLessIrreflexive(ToLower(a.name));
    }
    forall a: Attendee, b: Attendee, c: Attendee | Less(a, b) && Less(b, c)
      ensures Less(a, c)
    {
      LessTransitive(a, b, c);
    }
    forall a: Attendee, b: Attendee, c: Attendee | Equiv(Less, a, b) && Equiv(Less, b, c)
      ensures Equiv(Less, a, c)
    {
      EquivIsSameKey(a, b);
      EquivIsSameKey(b, c);
      EquivIsSameKey(a, c);
    }
  }

  /** `sortAttendees`: the slice, sorted in place. */
  method SortAttendees(attendees: array<Attendee>)
    modifies attendees
    ensures attendees[..] == SortBy(Less, old(attendees[..]))
  {
    InsertionSort(attendees, Less);
  }

  /** What the sorted list satisfies: sorted by the three keys, a
      permutation of the input, attendees with equal keys in their input
      order, and sorting again changes nothing. */
  lemma SortedAttendees(s: seq<Attendee>)
    ensures |SortBy(Less, s)| == |s|
    ensures multiset(SortBy(Less, s)) == multiset(s)
    ensures forall i, j :: 0 <= i < j < |s| ==> !Less(SortBy(Less, s)[j], SortBy(Less, s)[i])
    ensures forall y :: EquivTo(Less, y, SortBy(Less, s)) == EquivTo(Less, y, s)
    ensures SortBy(Less, SortBy(Less, s)) == SortBy(Less, s)
  {
    LessIsStrictWeakOrder();
    SortByPermutes(Less, s);
    SortBySorted(Less, s);
    SortedIsPairwise(Less, SortBy(Less, s));
    forall y
      ensures EquivTo(Less, y, SortBy(Less, s)) == EquivTo(Less, y, s)
    {
      SortByStable(Less, y, s);
    }
    SortByIdempotent(Less, s);
  }

  /** Any order `sort.SliceStable` may produce with this comparator is the
      one the model computes: a stable sort's result is unique. */
  lemma SliceStableResult(s: seq<Attendee>, r: seq<Attendee>)
    requires multiset(r) == multiset(s) && Sorted(Less, r)
    requires forall y :: EquivTo(Less, y, r) == EquivTo(Less, y, s)
    ensures r == SortBy(Less, s)
  {
    LessIsStrictWeakOrder();
    SortByIsTheStableSort(Less, s, r);
  }

  /** Type comes first: every required attendee precedes every optional
      one, which precedes every resource. */
  lemma TypesInOrder(s: seq<Attendee>, i: int, j: int)
    requires 0 <= i < j < |s|
    ensures TypeRank(SortBy(Less, s)[i].kind) <= TypeRank(SortBy(Less, s)[j].kind)
  {
    SortedAttendees(s);
    var r := SortBy(Less, s);
    assert !Less(r[j], r[i]);
  }

  /** Within one type, e-mail decides, ignoring case: "Alice" sorts
      before "bob" and "charlie" although 'A' comes before 'b' and 'c'
      only once lower-cased. */
  lemma EmailIgnoresCase()
    ensures SortBy(Less, [
        Attendee("User C", "charlie@example.com", Required),
        Attendee("User A", "Alice@example.com", Required),
        Attendee("User B", "bob@example.com", Required)])
      == [
        Attendee("User A", "Alice@example.com", Required),
        Attendee("User B", "bob@example.com", Required),
        Attendee("User C", "charlie@example.com", Required)]
  {
    var c := Attendee("User C", "charlie@example.com", Required);
    var a := Attendee("User A", "Alice@example.com", Required);
    var b := Attendee("User B", "bob@example.com", Required);
    var ea, eb, ec := ToLower(a.email), ToLower(b.email), ToLower(c.email);
    assert ea[0] == 'a' && eb[0] == 'b' && ec[0] == 'c';
    assert Less(a, c) && Less(b, c) && !Less(b, a);
    assert SortBy(Less, [c]) == [c] by {
      assert [c][..0] == [];
    }
    assert InsertBy(Less, a, [c]) == [a, c] by {
      assert [c][..0] == [];
    }
    assert SortBy(Less, [c, a]) == [a, c] by {
      assert [c, a][..1] == [c];
    }
    assert InsertBy(Less, b, [a, c]) == [a, b, c] by {
      assert [a, c][..1] == [a];
      assert InsertBy(Less, b, [a]) == [a, b];
    }
    assert [c, a, b][..2] == [c, a];
  }
}
