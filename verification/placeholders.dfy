/** Placeholder substitution in localised messages: a message such as
    "search results for '%text%'" is cut with JavaScript's
    `message.split(/%(.*?)%/)`, every chunk (literal text and captured names
    alike) is replaced by `placeholders[chunk] ?? chunk`, and the chunks are
    joined again.

    Strings are sequences of Unicode scalar values; JavaScript cuts UTF-16 code
    units, but `%` and the line terminators are single code units, so the cuts
    fall at the same places. */
module Placeholders {
  import opened Wrappers

  /** The characters the regular-expression `.` does not match. */
  predicate IsLineTerminator(c: char) {
    c == '\n' || c == '\r' || c == '\U{2028}' || c == '\U{2029}'
  }

  /** A string that can appear between the two `%` of one match of `/%(.*?)%/`. */
  predicate IsName(n: string) {
    forall i :: 0 <= i < |n| ==> n[i] != '%' && !IsLineTerminator(n[i])
  }

  /** The lazy `(.*?)%` started at index k ends with the `%` at index j:
      the characters in between are neither `%` (laziness stops at the first
      one) nor line terminators (`.` cannot cross them). */
  ghost predicate ClosesAt(s: string, k: nat, j: nat) {
    k <= j < |s| && s[j] == '%' &&
    forall m :: k <= m < j ==> s[m] != '%' && !IsLineTerminator(s[m])
  }

  /** `/%(.*?)%/` matches at index q and its closing `%` is at index j. */
  ghost predicate MatchesAt(s: string, q: nat, j: nat) {
    q < |s| && s[q] == '%' && ClosesAt(s, q + 1, j)
  }

  lemma ClosesAtUnique(s: string, k: nat, j1: nat, j2: nat)
    requires ClosesAt(s, k, j1) && ClosesAt(s, k, j2)
    ensures j1 == j2
  {
  }

  /** Where the lazy `(.*?)%` started at index k closes, if it does. */
  function CloseFrom(s: string, k: nat): (r: Option<nat>)
    requires k <= |s|
    decreases |s| - k
    ensures r.Some? ==> ClosesAt(s, k, r.value)
    ensures r.None? ==> forall j: nat :: !ClosesAt(s, k, j)
  {
    if k == |s| then None
    else if s[k] == '%' then Some(k)
    else if IsLineTerminator(s[k]) then None
    else
      assert forall j: nat :: ClosesAt(s, k, j) ==> ClosesAt(s, k + 1, j);
      CloseFrom(s, k + 1)
  }

  /** The sticky match of `/%(.*?)%/` at index q: the index of its closing `%`. */
  function MatchAt(s: string, q: nat): (r: Option<nat>)
    requires q < |s|
    ensures r.Some? ==> MatchesAt(s, q, r.value)
    ensures r.None? ==> forall j: nat :: !MatchesAt(s, q, j)
  {
    if s[q] == '%' then CloseFrom(s, q + 1) else None
  }

  /** The leftmost match at or after index q, as (opening index, closing index). */
  function FirstMatch(s: string, q: nat): (r: Option<(nat, nat)>)
    decreases |s| - q
    ensures r.Some? ==> q <= r.value.0 && MatchesAt(s, r.value.0, r.value.1)
    ensures r.Some? ==> forall q': nat, j: nat :: q <= q' < r.value.0 ==> !MatchesAt(s, q', j)
    ensures r.None? ==> forall q': nat, j: nat :: q <= q' ==> !MatchesAt(s, q', j)
  {
    if q >= |s| then None
    else match MatchAt(s, q)
      case Some(j) => Some((q, j))
      case None => FirstMatch(s, q + 1)
  }

  /** `s.split(/%(.*?)%/)`: literal chunks at even indices, the captured names at
      odd indices. After a match the search resumes just past its closing `%`. */
  function Split(s: string): (r: seq<string>)
    decreases |s|
    ensures |r| % 2 == 1
    ensures forall i :: 0 <= i < |r| && i % 2 == 1 ==> IsName(r[i])
  {
    match FirstMatch(s, 0)
    case None => [s]
    case Some((q, j)) =>
      var rest := Split(s[j + 1..]);
      [s[..q], s[q + 1..j]] + rest
  }

  /** The inverse of `Split`: wrap every odd-indexed chunk in `%` again and join. */
  function Reassemble(chunks: seq<string>): string
    requires |chunks| % 2 == 1
    decreases |chunks|
  {
    if |chunks| == 1 then chunks[0]
    else chunks[0] + "%" + chunks[1] + "%" + Reassemble(chunks[2..])
  }

  /** Splitting loses nothing: the chunks and the removed `%` give back the message. */
  lemma {:induction false} ReassembleSplit(s: string)
    decreases |s|
    ensures Reassemble(Split(s)) == s
  {
    match FirstMatch(s, 0)
    case None =>
    case Some((q, j)) =>
      var rest := s[j + 1..];
      ReassembleSplit(rest);
      var chunks := Split(s);
      assert chunks == [s[..q], s[q + 1..j]] + Split(rest);
      assert chunks[2..] == Split(rest);
      assert s == s[..q] + [s[q]] + s[q + 1..j] + [s[j]] + rest;
  }

  /** Two `%` characters at distinct positions make the count of `%` at least two. */
  lemma TwoMarks(s: string, q: nat, j: nat)
    requires q < j < |s| && s[q] == '%' && s[j] == '%'
    ensures multiset(s)['%'] >= 2
  {
    assert s == s[..j] + s[j..];
    assert s[..j][q] == '%';
    assert s[j..][0] == '%';
    assert multiset(s) == multiset(s[..j]) + multiset(s[j..]);
  }

  /** A message with fewer than two `%` characters is a single chunk. */
  lemma SplitFewMarks(s: string)
    requires multiset(s)['%'] < 2
    ensures Split(s) == [s]
  {
    match FirstMatch(s, 0)
    case None =>
    case Some((q, j)) =>
      TwoMarks(s, q, j);
      assert false;
  }

  /** A `%name%` preceded by literal text without `%` is the first match. */
  lemma SplitCons(a: string, n: string, rest: string)
    requires NoMark(a)
    requires IsName(n)
    ensures Split(a + "%" + n + "%" + rest) == [a, n] + Split(rest)
  {
    var s := a + "%" + n + "%" + rest;
    var q := |a|;
    var j := |a| + 1 + |n|;
    assert s[q] == '%' && s[j] == '%';
    assert ClosesAt(s, q + 1, j) by {
      forall m | q + 1 <= m < j
        ensures s[m] != '%' && !IsLineTerminator(s[m])
      {
        assert s[m] == n[m - q - 1];
      }
    }
    assert MatchesAt(s, q, j);
    forall q': nat, j': nat | q' < q
      ensures !MatchesAt(s, q', j')
    {
      assert s[q'] == a[q'];
    }
    var r := FirstMatch(s, 0);
    assert r.Some? && r.value.0 == q;
    ClosesAtUnique(s, q + 1, j, r.value.1);
    assert s[..q] == a;
    assert s[q + 1..j] == n;
    assert s[j + 1..] == rest;
  }

  /** One piece of the rewrite: `placeholders[chunk] ?? chunk`. */
  function Piece(chunk: string, placeholders: map<string, string>): string {
    if chunk in placeholders then placeholders[chunk] else chunk
  }

  /** `chunks.map(chunk => placeholders[chunk] ?? chunk).join("")` */
  function Rewrite(chunks: seq<string>, placeholders: map<string, string>): string
    decreases |chunks|
  {
    if chunks == [] then "" else Piece(chunks[0], placeholders) + Rewrite(chunks[1..], placeholders)
  }

  /** The substitution applied to a found message. */
  function Substitute(message: string, placeholders: map<string, string>): string {
    Rewrite(Split(message), placeholders)
  }

  /** Fewer than two `%`: only the whole message can be replaced, by its own entry. */
  lemma SubstituteFewMarks(message: string, placeholders: map<string, string>)
    requires multiset(message)['%'] < 2
    ensures message !in placeholders ==> Substitute(message, placeholders) == message
    ensures message in placeholders ==> Substitute(message, placeholders) == placeholders[message]
  {
    SplitFewMarks(message);
    assert [message][1..] == [];
    assert Rewrite([message], placeholders) == Piece(message, placeholders) + Rewrite([], placeholders);
  }

  /** The leading `%name%` becomes its value, or the bare name when it has none;
      the literal before it is looked up as well; the rest is rewritten on its own. */
  lemma SubstitutePlaceholder(a: string, n: string, rest: string, placeholders: map<string, string>)
    requires NoMark(a)
    requires IsName(n)
    ensures Substitute(a + "%" + n + "%" + rest, placeholders)
         == Piece(a, placeholders) + Piece(n, placeholders) + Substitute(rest, placeholders)
    ensures n !in placeholders && a !in placeholders ==>
            Substitute(a + "%" + n + "%" + rest, placeholders) == a + n + Substitute(rest, placeholders)
  {
    SplitCons(a, n, rest);
    var chunks := [a, n] + Split(rest);
    assert chunks[1..] == [n] + Split(rest);
    assert chunks[1..][1..] == Split(rest);
    assert Rewrite(chunks, placeholders) == Piece(a, placeholders) + Rewrite(chunks[1..], placeholders);
    assert Rewrite(chunks[1..], placeholders) == Piece(n, placeholders) + Rewrite(Split(rest), placeholders);
  }

  /** A message written as literal text and `%name%` placeholders. */
  datatype Segment = Segment(literal: string, name: string)
  datatype Template = Template(segments: seq<Segment>, tail: string)

  /** No `%` anywhere in the text. */
  predicate NoMark(s: string) {
    forall i :: 0 <= i < |s| ==> s[i] != '%'
  }

  predicate WellFormed(t: Template) {
    && (forall i :: 0 <= i < |t.segments| ==> NoMark(t.segments[i].literal) && IsName(t.segments[i].name))
    && NoMark(t.tail)
  }

  /** The message text of a template. */
  function Render(t: Template): string
    decreases |t.segments|
  {
    if t.segments == [] then t.tail
    else
      var s := t.segments[0];
      s.literal + "%" + s.name + "%" + Render(Template(t.segments[1..], t.tail))
  }

  /** The chunks a template is made of: literal, name, literal, name, ..., tail. */
  function Chunks(t: Template): seq<string>
    decreases |t.segments|
  {
    if t.segments == [] then [t.tail]
    else [t.segments[0].literal, t.segments[0].name] + Chunks(Template(t.segments[1..], t.tail))
  }

  /** The split recognises exactly the placeholders a well-formed template was written with. */
  lemma {:induction false} SplitRender(t: Template)
    requires WellFormed(t)
    decreases |t.segments|
    ensures Split(Render(t)) == Chunks(t)
  {
    if t.segments == [] {
      SplitFewMarks(t.tail) by {
        assert '%' !in multiset(t.tail);
      }
    } else {
      var s := t.segments[0];
      var t' := Template(t.segments[1..], t.tail);
      assert WellFormed(t') by {
        forall i | 0 <= i < |t'.segments|
          ensures NoMark(t'.segments[i].literal) && IsName(t'.segments[i].name)
        {
          assert t'.segments[i] == t.segments[i + 1];
        }
      }
      SplitRender(t');
      SplitCons(s.literal, s.name, Render(t'));
    }
  }
}
