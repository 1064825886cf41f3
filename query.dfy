/** The read-only handlers over the store's contents: term search (a `filter`),
    lookup by id (a `find`), and the `indexOf` the delete handler uses. */
module Query {
  import opened Text
  import opened Bookings

  /** `r` is `s` with some elements dropped and the rest in their original order. */
  predicate Subseq<T(==)>(r: seq<T>, s: seq<T>)
    decreases |s|
  {
    if r == [] then true
    else if s == [] then false
    else (r[0] == s[0] && Subseq(r[1..], s[1..])) || Subseq(r, s[1..])
  }

  /** Every element of a subsequence is an element of the whole. */
  lemma {:induction false} SubseqMembers<T>(r: seq<T>, s: seq<T>)
    requires Subseq(r, s)
    ensures forall x :: x in r ==> x in s
    decreases |s|
  {
    if r != [] {
      if r[0] == s[0] && Subseq(r[1..], s[1..]) {
        SubseqMembers(r[1..], s[1..]);
        assert r == [r[0]] + r[1..] && s == [s[0]] + s[1..];
      } else {
        SubseqMembers(r, s[1..]);
      }
    }
  }

  /** Every sequence is a subsequence of itself. */
  lemma {:induction false} SubseqRefl<T>(s: seq<T>)
    ensures Subseq(s, s)
    decreases |s|
  {
    if s != [] {
      SubseqRefl(s[1..]);
    }
  }

  // ---------------------------------------------------------------------------
  // Term search
  // ---------------------------------------------------------------------------

  /** `v.toUpperCase().includes(upperTerm)`: `None` exactly when `v` is not a
      string and the call throws, otherwise whether the term occurs in the
      upper-cased string. */
  function FieldIncludes(v: Value, upperTerm: string): (r: Option<bool>)
    ensures r.Some? <==> v.Str?
    ensures v.Str? ==> (r == Some(true) <==> IsSubstring(upperTerm, ToUpper(v.s)))
  {
    match v
    case Str(s) => Some(Includes(ToUpper(s), upperTerm))
    case _ => None
  }

  /** Reference meaning of a match for an already upper-cased term: it occurs in
      the upper-cased first name, surname or email. */
  ghost predicate MentionsUpper(b: Booking, upperTerm: string)
  {
    || (b.firstName.Str? && IsSubstring(upperTerm, ToUpper(b.firstName.s)))
    || (b.surname.Str? && IsSubstring(upperTerm, ToUpper(b.surname.s)))
    || (b.email.Str? && IsSubstring(upperTerm, ToUpper(b.email.s)))
  }

  /** Reference meaning of a match: the upper-cased term occurs in the
      upper-cased first name, surname or email. */
  ghost predicate Mentions(b: Booking, term: string)
  {
    MentionsUpper(b, ToUpper(term))
  }

  /** The three fields the search reads are all strings. */
  predicate NamesAreText(b: Booking)
  {
    b.firstName.Str? && b.surname.Str? && b.email.Str?
  }

  /** The filter callback: first name, then surname, then email, stopping at the
      first field that contains the term (`||` short-circuits) and failing at the
      first field reached that is not a string. Whenever it does not throw, its
      answer is the reference match; it never throws when the three fields are
      strings. */
  function MatchesTerm(b: Booking, upperTerm: string): (r: Option<bool>)
    ensures r.Some? ==> r == Some(MentionsUpper(b, upperTerm))
    ensures NamesAreText(b) ==> r.Some?
  {
    match FieldIncludes(b.firstName, upperTerm)
    case None => None
    case Some(true) => Some(true)
    case Some(false) =>
      match FieldIncludes(b.surname, upperTerm)
      case None => None
      case Some(true) => Some(true)
      case Some(false) => FieldIncludes(b.email, upperTerm)
  }

  /** `allBookings.filter(callback)`: `None` when the callback throws on some
      booking; otherwise the matching bookings in store order, each as many
      times as it is stored. */
  function Matching(s: seq<Booking>, upperTerm: string): (r: Option<seq<Booking>>)
    ensures r.None? <==> exists b :: b in s && MatchesTerm(b, upperTerm).None?
    ensures r.Some? ==> Subseq(r.value, s)
    ensures r.Some? ==> forall b :: b in r.value ==> MatchesTerm(b, upperTerm) == Some(true)
    ensures r.Some? ==> forall b ::
      multiset(r.value)[b] == if MatchesTerm(b, upperTerm) == Some(true) then multiset(s)[b] else 0
    decreases |s|
  {
    if s == [] then Some([])
    else
      assert s == [s[0]] + s[1..];
      match MatchesTerm(s[0], upperTerm)
      case None => None
      case Some(m) =>
        match Matching(s[1..], upperTerm)
        case None => None
        case Some(rest) => Some(if m then [s[0]] + rest else rest)
  }

  /** `GET /bookings/search?term=...`. No reply at all when the term is absent or
      empty; a 500 failure when the filter throws; otherwise stored bookings that
      mention the term. */
  function Search(s: seq<Booking>, term: Option<string>): (r: Reply<seq<Booking>>)
    ensures r.NoReply? <==> term.None? || term.value == []
    ensures r.Err? ==> r.failure == NotText && exists b :: b in s && !NamesAreText(b)
    ensures r.Ok? ==> Subseq(r.value, s)
    ensures r.Ok? ==> forall b :: b in r.value ==> b in s && Mentions(b, term.value)
  {
    if term.None? || term.value == [] then NoReply
    else
      var upperTerm := ToUpper(term.value);
      match Matching(s, upperTerm)
      case None => Err(NotText)
      case Some(found) =>
        SubseqMembers(found, s);
        Ok(found)
  }

  /** A non-empty term succeeds whenever the stored name fields are all strings,
      and every successful search yields exactly the stored bookings that mention
      the term, each as many times as it is stored, in store order. */
  lemma SearchExact(s: seq<Booking>, term: string)
    requires term != []
    ensures (forall b :: b in s ==> NamesAreText(b)) ==> Search(s, Some(term)).Ok?
    ensures Search(s, Some(term)).Ok? ==> Subseq(Search(s, Some(term)).value, s)
    ensures Search(s, Some(term)).Ok? ==> forall b ::
      multiset(Search(s, Some(term)).value)[b] == if Mentions(b, term) then multiset(s)[b] else 0
  {
    var r := Matching(s, ToUpper(term));
    if r.Some? {
      forall b
        ensures multiset(r.value)[b] == if Mentions(b, term) then multiset(s)[b] else 0
      {
        if b in s {
          assert MatchesTerm(b, ToUpper(term)).Some?;
        }
      }
    }
  }

  /** Only the upper-cased term matters: terms that differ in case search alike. */
  lemma SearchIgnoresCase(s: seq<Booking>, t1: string, t2: string)
    requires ToUpper(t1) == ToUpper(t2)
    ensures Search(s, Some(t1)) == Search(s, Some(t2))
  {
    assert |t1| == |ToUpper(t1)| == |ToUpper(t2)| == |t2|;
  }

  /** Any case variant of a substring of a stored booking's first name, surname
      or email finds that booking. */
  lemma SearchFindsCaseVariant(s: seq<Booking>, b: Booking, sub: string, term: string)
    requires b in s && forall c :: c in s ==> NamesAreText(c)
    requires sub != []
    requires NamesAreText(b)
    requires || IsSubstring(sub, b.firstName.s)
             || IsSubstring(sub, b.surname.s)
             || IsSubstring(sub, b.email.s)
    requires ToUpper(term) == ToUpper(sub)
    ensures Search(s, Some(term)).Ok? && b in Search(s, Some(term)).value
  {
    if IsSubstring(sub, b.firstName.s) {
      UpperKeepsSubstring(sub, b.firstName.s);
    } else if IsSubstring(sub, b.surname.s) {
      UpperKeepsSubstring(sub, b.surname.s);
    } else {
      UpperKeepsSubstring(sub, b.email.s);
    }
    assert Mentions(b, term);
    assert term != [] by { assert |term| == |ToUpper(term)| == |ToUpper(sub)| == |sub|; }
    SearchExact(s, term);
    assert multiset(s)[b] > 0;
  }

  // ---------------------------------------------------------------------------
  // Lookup by id
  // ---------------------------------------------------------------------------

  /** `i` is the position of the first booking whose id is `id`. */
  ghost predicate IsFirstWithId(s: seq<Booking>, i: int, id: int)
  {
    0 <= i < |s| && s[i].id == id && forall k :: 0 <= k < i ==> s[k].id != id
  }

  /** `allBookings.find(booking => booking.id == id)`. */
  function Find(s: seq<Booking>, id: int): (r: Option<Booking>)
    ensures r.Some? ==> r.value in s && r.value.id == id
    ensures r.None? <==> forall k :: 0 <= k < |s| ==> s[k].id != id
    decreases |s|
  {
    if s == [] then None
    else if s[0].id == id then Some(s[0])
    else Find(s[1..], id)
  }

  /** `find` returns the first match, not just any. */
  lemma {:induction false} FindReturnsFirst(s: seq<Booking>, id: int, i: int)
    requires IsFirstWithId(s, i, id)
    ensures Find(s, id) == Some(s[i])
    decreases |s|
  {
    if i > 0 {
      assert s[0].id != id;
      FindReturnsFirst(s[1..], id, i - 1);
    }
  }

  /** Whenever some booking has the id, a first one does. */
  lemma {:induction false} FirstWithIdExists(s: seq<Booking>, id: int, j: int)
    requires 0 <= j < |s| && s[j].id == id
    ensures exists i :: IsFirstWithId(s, i, id)
    decreases j
  {
    if exists k :: 0 <= k < j && s[k].id == id {
      var k :| 0 <= k < j && s[k].id == id;
      FirstWithIdExists(s, id, k);
    } else {
      assert IsFirstWithId(s, j, id);
    }
  }

  /** `allBookings.indexOf(x)`: the first position holding `x`. */
  function IndexOf(s: seq<Booking>, x: Booking): (r: Option<nat>)
    ensures r.Some? ==> r.value < |s| && s[r.value] == x && forall k :: 0 <= k < r.value ==> s[k] != x
    ensures r.None? <==> x !in s
    decreases |s|
  {
    if s == [] then None
    else if s[0] == x then Some(0)
    else match IndexOf(s[1..], x)
      case None => None
      case Some(k) => Some(k + 1)
  }

  /** `indexOf` of the booking that `find` returned is the position of the
      first booking with the id. */
  lemma IndexOfFirstWithId(s: seq<Booking>, id: int, i: int)
    requires IsFirstWithId(s, i, id)
    ensures IndexOf(s, s[i]) == Some(i)
  {
    assert forall k :: 0 <= k < i ==> s[k] != s[i];
  }

  /** `GET /bookings/:id`: the booking with that id, or a 400 failure that
      carries the id. */
  function Lookup(s: seq<Booking>, id: int): (r: Reply<Booking>)
    ensures r.Ok? || r == Err(LookupNotFound(id))
    ensures r.Ok? ==> r.value in s && r.value.id == id
    ensures r.Err? <==> forall k :: 0 <= k < |s| ==> s[k].id != id
  {
    match Find(s, id)
    case Some(b) => Ok(b)
    case None => Err(LookupNotFound(id))
  }

  /** Lookup answers with the first booking that has the id. */
  lemma LookupReturnsFirst(s: seq<Booking>, id: int, i: int)
    requires IsFirstWithId(s, i, id)
    ensures Lookup(s, id) == Ok(s[i])
  {
    FindReturnsFirst(s, id, i);
  }
}
