/**
 The signature of a member-key set: digests and signed roles, sorted, written one per line, hashed. The
 hash is the caller's; nothing is assumed of it but its shape and that it keeps two line forms apart.
 */
module MemberSigs {
  import opened Prelude
  import opened KeySyncs

  datatype MemberKey = MemberKey(key: string, role: string)

  type Hash = string -> string

  type Pair = (string, string)

  const SIGNED_ROLES: set<string> := {"owner", "coowner", "admin", "control", "monitor", "monitor_quiet"}

  predicate Signed(k: MemberKey) {
    k.key != "" && k.role in SIGNED_ROLES
  }

  /** The digest and role of every member whose role is signed, in list order. */
  function SignedPairs(keys: seq<MemberKey>, hash: Hash): seq<Pair> {
    if keys == [] then []
    else
      SignedPairs(keys[..|keys| - 1], hash) +
      (if Signed(Last(keys)) then [(hash(Last(keys).key), Last(keys).role)] else [])
  }

  // --- The order --------------------------------------------------------------------------------------------

  predicate TextLeq(a: string, b: string) {
    a == "" || (b != "" && (a[0] < b[0] || (a[0] == b[0] && TextLeq(a[1..], b[1..]))))
  }

  predicate PairLeq(a: Pair, b: Pair) {
    if a.0 == b.0 then TextLeq(a.1, b.1) else TextLeq(a.0, b.0)
  }

  lemma {:induction false} TextTotal(a: string, b: string)
    ensures TextLeq(a, b) || TextLeq(b, a)
  {
    if a != "" && b != "" {
      TextTotal(a[1..], b[1..]);
    }
  }

  lemma {:induction false} TextAntisymmetric(a: string, b: string)
    requires TextLeq(a, b) && TextLeq(b, a)
    ensures a == b
  {
    if a != "" && b != "" {
      TextAntisymmetric(a[1..], b[1..]);
      assert a == [a[0]] + a[1..] && b == [b[0]] + b[1..];
    }
  }

  lemma {:induction false} TextTransitive(a: string, b: string, c: string)
    requires TextLeq(a, b) && TextLeq(b, c)
    ensures TextLeq(a, c)
  {
    if a != "" && b != "" && c != "" && a[0] == b[0] == c[0] {
      TextTransitive(a[1..], b[1..], c[1..]);
    }
  }

  lemma PairOrder(a: Pair, b: Pair, c: Pair)
    ensures PairLeq(a, b) || PairLeq(b, a)
    ensures PairLeq(a, b) && PairLeq(b, a) ==> a == b
    ensures PairLeq(a, b) && PairLeq(b, c) ==> PairLeq(a, c)
  {
    TextTotal(a.0, b.0);
    TextTotal(a.1, b.1);
    if PairLeq(a, b) && PairLeq(b, a) {
      if a.0 != b.0 {
        TextAntisymmetric(a.0, b.0);
      } else {
        TextAntisymmetric(a.1, b.1);
      }
    }
    if PairLeq(a, b) && PairLeq(b, c) {
      if a.0 == b.0 == c.0 {
        TextTransitive(a.1, b.1, c.1);
      } else if a.0 != b.0 && b.0 != c.0 {
        TextTransitive(a.0, b.0, c.0);
        if a.0 == c.0 {
          TextAntisymmetric(a.0, b.0);
        }
      }
    }
  }

  // --- Sorting ------------------------------------------------------------------------------------------------

  ghost predicate InOrder(s: seq<Pair>) {
    forall i, j :: 0 <= i < j < |s| ==> PairLeq(s[i], s[j])
  }

  function Insert(x: Pair, s: seq<Pair>): seq<Pair> {
    if s == [] then [x]
    else if PairLeq(x, s[0]) then [x] + s
    else [s[0]] + Insert(x, s[1..])
  }

  function Sorted(s: seq<Pair>): seq<Pair> {
    if s == [] then [] else Insert(s[0], Sorted(s[1..]))
  }

  lemma {:induction false} InsertKeepsOrder(x: Pair, s: seq<Pair>)
    requires InOrder(s)
    ensures InOrder(Insert(x, s)) && multiset(Insert(x, s)) == multiset(s) + multiset{x}
  {
    if s == [] {
    } else if PairLeq(x, s[0]) {
      forall j | 0 <= j < |s| ensures PairLeq(x, s[j]) {
        PairOrder(x, s[0], s[j]);
      }
    } else {
      PairOrder(s[0], x, x);
      InsertKeepsOrder(x, s[1..]);
      assert s == [s[0]] + s[1..];
      var rest := Insert(x, s[1..]);
      hide Insert, PairLeq;
      forall y | y in rest ensures PairLeq(s[0], y) {
        assert y in multiset(rest);
        assert y != x ==> y in s[1..];
      }
      LeastFirst(s[0], rest);
    }
  }

  lemma LeastFirst(x: Pair, s: seq<Pair>)
    requires InOrder(s) && forall y :: y in s ==> PairLeq(x, y)
    ensures InOrder([x] + s) && multiset([x] + s) == multiset(s) + multiset{x}
  {
    hide PairLeq;
  }

  lemma {:induction false} SortedIsSorted(s: seq<Pair>)
    ensures InOrder(Sorted(s)) && multiset(Sorted(s)) == multiset(s)
  {
    if s != [] {
      SortedIsSorted(s[1..]);
      InsertKeepsOrder(s[0], Sorted(s[1..]));
      assert s == [s[0]] + s[1..];
    }
  }

  /** There is only one way to list a multiset in order. */
  lemma {:induction false} OrderIsUnique(s: seq<Pair>, t: seq<Pair>)
    requires InOrder(s) && InOrder(t) && multiset(s) == multiset(t)
    ensures s == t
  {
    hide InOrder;
    assert |t| == |multiset(t)| == |multiset(s)| == |s|;
    if s != [] {
      FirstsAgree(s, t);
      assert s == [s[0]] + s[1..] && t == [t[0]] + t[1..];
      RestHolds(s);
      RestHolds(t);
      OrderIsUnique(s[1..], t[1..]);
    }
  }

  lemma RestHolds(s: seq<Pair>)
    requires s != []
    ensures multiset(s[1..]) == multiset(s) - multiset{s[0]}
    ensures InOrder(s) ==> InOrder(s[1..])
  {
    assert s == [s[0]] + s[1..];
  }

  lemma FirstsAgree(s: seq<Pair>, t: seq<Pair>)
    requires InOrder(s) && InOrder(t) && multiset(s) == multiset(t) && s != [] && t != []
    ensures s[0] == t[0]
  {
    hide PairLeq, InOrder;
    assert s[0] in multiset(t) && t[0] in multiset(s);
    PairOrder(s[0], t[0], t[0]);
    FirstIsLeast(s, t[0]);
    FirstIsLeast(t, s[0]);
  }

  lemma FirstIsLeast(s: seq<Pair>, x: Pair)
    requires InOrder(s) && x in s
    ensures PairLeq(s[0], x)
  {
    PairOrder(x, x, x);
  }

  // --- The line form --------------------------------------------------------------------------------------------

  function Line(p: Pair): string {
    p.0 + " " + p.1 + "\n"
  }

  function LineForm(pairs: seq<Pair>): string {
    if pairs == [] then "" else Line(pairs[0]) + LineForm(pairs[1..])
  }

  lemma {:induction false} LineFormAppends(pairs: seq<Pair>, p: Pair)
    ensures LineForm(pairs + [p]) == LineForm(pairs) + Line(p)
  {
    if pairs == [] {
      assert LineForm([p]) == Line(p) + LineForm([p][1..]);
    } else {
      LineFormAppends(pairs[1..], p);
      assert (pairs + [p])[1..] == pairs[1..] + [p];
    }
  }

  /** A digest and a role as the line form carries them. */
  predicate Writable(p: Pair) {
    ValidSig(p.0) && p.1 in SIGNED_ROLES
  }

  lemma RolesHaveNoNewline(role: string)
    requires role in SIGNED_ROLES
    ensures '\n' !in role
  {
  }

  /** One line can be read off the front of a text in one way only. */
  lemma LineDecodes(p: Pair, q: Pair, restP: string, restQ: string)
    requires Writable(p) && Writable(q)
    requires Line(p) + restP == Line(q) + restQ
    ensures p == q && restP == restQ
  {
    RolesHaveNoNewline(p.1);
    RolesHaveNoNewline(q.1);
    hide Writable, SIGNED_ROLES;
    var text := Line(p) + restP;
    LineSplits(p, restP);
    LineSplits(q, restQ);
    hide Line;
    NewlineIsAt(p.1, restP);
    NewlineIsAt(q.1, restQ);
  }

  lemma LineSplits(p: Pair, rest: string)
    requires |p.0| == 64
    ensures var text, m := Line(p) + rest, |p.1|;
      && |text| >= 66 + m && text[..64] == p.0 && text[65..] == p.1 + "\n" + rest
      && text[65..65 + m] == p.1 && text[66 + m..] == rest
  {
  }

  /** Where the first line of a text ends. */
  function LineEnd(text: string): nat {
    if text == "" || text[0] == '\n' then 0 else 1 + LineEnd(text[1..])
  }

  lemma {:induction false} NewlineIsAt(role: string, rest: string)
    requires '\n' !in role
    ensures LineEnd(role + "\n" + rest) == |role|
  {
    var text := role + "\n" + rest;
    if role != "" {
      assert text[0] == role[0] && text[1..] == role[1..] + "\n" + rest;
      NewlineIsAt(role[1..], rest);
    }
  }

  /** The line form says which pairs it lists, and in which order. */
  lemma {:induction false} LineFormDecodes(s: seq<Pair>, t: seq<Pair>)
    requires forall p :: p in s || p in t ==> Writable(p)
    requires LineForm(s) == LineForm(t)
    ensures s == t
  {
    if s != [] && t != [] {
      LineDecodes(s[0], t[0], LineForm(s[1..]), LineForm(t[1..]));
      LineFormDecodes(s[1..], t[1..]);
      assert s == [s[0]] + s[1..] && t == [t[0]] + t[1..];
    }
  }

  /** From `at` on the text has the pair's line: a digest, a blank, a role and the end of the line. */
  predicate HasLine(text: string, at: nat, p: Pair) {
    var m := |p.1|;
    && at + 66 + m <= |text|
    && text[at..at + 64] == p.0 && text[at + 64] == ' '
    && text[at + 65..at + 65 + m] == p.1 && text[at + 65 + m] == '\n'
  }

  lemma MoreText(text: string, more: string, at: nat, p: Pair)
    requires HasLine(text, at, p)
    ensures HasLine(text + more, at, p)
  {
    var m := |p.1|;
    assert (text + more)[at..at + 64] == text[at..at + 64];
    assert (text + more)[at + 65..at + 65 + m] == text[at + 65..at + 65 + m];
  }

  lemma LineIs(text: string, p: Pair)
    requires Writable(p)
    ensures HasLine(text + Line(p), |text|, p) && |Line(p)| == 66 + |p.1|
  {
    assert |p.0| == 64;
    hide Writable;
    var all, at, m := text + Line(p), |text|, |p.1|;
    assert all[at..at + 64] == p.0 && all[at + 65..at + 65 + m] == p.1;
  }

  /** Line by line, each pair in its place, and nothing after the last. */
  lemma {:induction false} LineFormAt(pairs: seq<Pair>, k: nat)
    requires k < |pairs| && forall p :: p in pairs ==> Writable(p)
    ensures HasLine(LineForm(pairs), |LineForm(pairs[..k])|, pairs[k])
    ensures k == |pairs| - 1 ==> |LineForm(pairs)| == |LineForm(pairs[..k])| + 66 + |pairs[k].1|
  {
    var front, p := pairs[..|pairs| - 1], pairs[|pairs| - 1];
    assert pairs == front + [p];
    LineFormAppends(front, p);
    LineIs(LineForm(front), p);
    hide Writable, Line, LineForm, HasLine;
    if k < |front| {
      LineFormAt(front, k);
      assert front[..k] == pairs[..k];
      MoreText(LineForm(front), Line(p), |LineForm(front[..k])|, pairs[k]);
    } else {
      assert pairs[..k] == front;
    }
  }

  // --- The signature ----------------------------------------------------------------------------------------------

  function CanonicalText(keys: seq<MemberKey>, hash: Hash): string {
    LineForm(Sorted(SignedPairs(keys, hash)))
  }

  function MemberSetSig(keys: seq<MemberKey>, hash: Hash): string {
    hash(CanonicalText(keys, hash))
  }

  /** The signature as the daemon builds it: collect, sort, append line by line, hash. */
  method BuildMemberSetSig(keys: seq<MemberKey>, hash: Hash) returns (sig: string)
    ensures sig == MemberSetSig(keys, hash)
  {
    var members: seq<Pair> := [];
    for i := 0 to |keys|
      invariant members == SignedPairs(keys[..i], hash)
    {
      assert keys[..i + 1][..i] == keys[..i];
      if keys[i].key != "" && keys[i].role in SIGNED_ROLES {
        members := members + [(hash(keys[i].key), keys[i].role)];
      }
    }
    assert keys[..|keys|] == keys;
    members := Sorted(members);
    var text := "";
    for i := 0 to |members|
      invariant text == LineForm(members[..i])
    {
      LineFormAppends(members[..i], members[i]);
      assert members[..i + 1] == members[..i] + [members[i]];
      text := text + members[i].0 + " " + members[i].1 + "\n";
    }
    assert members[..|members|] == members;
    sig := hash(text);
  }

  /** Whatever the list of members was: the hash of the lines of their signed pairs in order. */
  lemma {:induction false} SignatureIsOfTheListing(keys: seq<MemberKey>, hash: Hash, listing: seq<Pair>)
    requires InOrder(listing) && multiset(listing) == multiset(SignedPairs(keys, hash))
    ensures MemberSetSig(keys, hash) == hash(LineForm(listing))
  {
    SortedIsSorted(SignedPairs(keys, hash));
    OrderIsUnique(listing, Sorted(SignedPairs(keys, hash)));
  }

  lemma {:induction false} SignedPairsAreWritable(keys: seq<MemberKey>, hash: Hash)
    requires forall k :: ValidSig(hash(k))
    ensures forall p :: p in SignedPairs(keys, hash) ==> Writable(p)
  {
    hide ValidSig;
    if keys != [] {
      SignedPairsAreWritable(keys[..|keys| - 1], hash);
    }
  }

  /** The member signs as this pair: it has a key, its role is one of the six signed ones, and the pair is theirs. */
  predicate SignsAs(k: MemberKey, hash: Hash, p: Pair) {
    && k.key != ""
    && (k.role == "owner" || k.role == "coowner" || k.role == "admin" || k.role == "control" || k.role == "monitor" || k.role == "monitor_quiet")
    && p == (hash(k.key), k.role)
  }

  /** A pair is signed as often as there are members who sign as it. */
  lemma {:induction false} SignedPairsAre(keys: seq<MemberKey>, hash: Hash, p: Pair)
    ensures multiset(SignedPairs(keys, hash))[p] == |set i: nat | i < |keys| && SignsAs(keys[i], hash, p)|
  {
    hide SignsAs, Signed;
    if keys == [] {
      assert (set i: nat | i < |keys| && SignsAs(keys[i], hash, p)) == {};
    } else {
      var front, k := keys[..|keys| - 1], Last(keys);
      SignedPairsAre(front, hash, p);
      SignedIs(k, hash, p);
      SignersOfMore(front, k, hash, p);
      assert keys == front + [k];
    }
  }

  lemma SignersOfMore(front: seq<MemberKey>, k: MemberKey, hash: Hash, p: Pair)
    ensures |set i: nat | i < |front + [k]| && SignsAs((front + [k])[i], hash, p)|
         == |set i: nat | i < |front| && SignsAs(front[i], hash, p)| + (if SignsAs(k, hash, p) then 1 else 0)
  {
    hide SignsAs;
    var keys := front + [k];
    var was := set i: nat | i < |front| && SignsAs(front[i], hash, p);
    var now := set i: nat | i < |keys| && SignsAs(keys[i], hash, p);
    assert keys[|front|] == k && |front| !in was;
    assert now == if SignsAs(k, hash, p) then was + {|front|} else was;
  }

  lemma SignedIs(k: MemberKey, hash: Hash, p: Pair)
    ensures SignsAs(k, hash, p) <==> Signed(k) && p == (hash(k.key), k.role)
  {
  }

  /** The order of the lines: by digest, then by role, each at the first character that differs, a shorter text first. */
  lemma {:induction false} TextLeqIs(a: string, b: string, k: nat)
    requires k <= |a| && k <= |b| && a[..k] == b[..k]
    requires k == |a| || (k < |b| && a[k] != b[k]) || (k == |b| && k < |a|)
    ensures TextLeq(a, b) <==> k == |a| || (k < |b| && a[k] < b[k])
    decreases k
  {
    if k > 0 {
      assert a[0] == a[..k][0] == b[..k][0] == b[0];
      assert a[1..][..k - 1] == a[..k][1..] == b[..k][1..] == b[1..][..k - 1];
      TextLeqIs(a[1..], b[1..], k - 1);
    }
  }

  /**
   The signature is canonical: for a hash with 64-hex digests that does not collide on the two texts at
   hand, two key lists sign the same exactly when the same digests carry the same signed roles, each as
   often; order, unsigned roles and empty keys never show.
   */
  lemma {:induction false} SignatureIsCanonical(hash: Hash, a: seq<MemberKey>, b: seq<MemberKey>)
    requires forall k :: ValidSig(hash(k))
    requires MemberSetSig(a, hash) == MemberSetSig(b, hash) ==> CanonicalText(a, hash) == CanonicalText(b, hash)
    ensures MemberSetSig(a, hash) == MemberSetSig(b, hash) <==>
      multiset(SignedPairs(a, hash)) == multiset(SignedPairs(b, hash))
  {
    var pa, pb := SignedPairs(a, hash), SignedPairs(b, hash);
    SortedIsSorted(pa);
    SortedIsSorted(pb);
    SignedPairsAreWritable(a, hash);
    SignedPairsAreWritable(b, hash);
    hide ValidSig, Sorted, SignedPairs, Writable, LineForm;
    if multiset(pa) == multiset(pb) {
      OrderIsUnique(Sorted(pa), Sorted(pb));
    } else if MemberSetSig(a, hash) == MemberSetSig(b, hash) {
      forall p | p in Sorted(pa) || p in Sorted(pb) ensures Writable(p) {
        assert p in multiset(Sorted(pa)) || p in multiset(Sorted(pb));
        assert p in multiset(pa) || p in multiset(pb);
      }
      LineFormDecodes(Sorted(pa), Sorted(pb));
    }
  }
}
