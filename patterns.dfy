/** The fragment of the `regex` crate the log grammars use, as a backtracking matcher.

    A pattern is a list of atoms. Matching a pattern at an offset of a line yields one
    piece of text per atom; the pieces, joined, are the matched prefix of what follows the
    offset, so text after the match is ignored (the grammars are anchored with `^` only).
    Quantifiers are tried in the crate's leftmost-first priority: a greedy atom tries its
    longest run first, a lazy atom its shortest, and an alternation its alternatives from
    left to right, each choice being kept only when the rest of the pattern can follow it. */
module Patterns {
  import opened Common

  /** The character classes that occur under a quantifier. */
  datatype Class =
    | Except(c: char)   // [^c]
    | Only(c: char)     // a single literal character, as in `-?`
    | Digit             // \d
    | NonSpace          // [^\s]
    | Alnum             // [a-zA-Z0-9]
    | DigitOrSpace      // [0-9\s]
    | NotNewline        // .

  predicate In(k: Class, c: char) {
    match k
    case Except(x) => c != x
    case Only(x) => c == x
    case Digit => IsDigit(c)
    case NonSpace => !IsSpace(c)
    case Alnum => IsDigit(c) || 'a' <= c <= 'z' || 'A' <= c <= 'Z'
    case DigitOrSpace => IsDigit(c) || IsSpace(c)
    case NotNewline => c != '\n'
  }

  predicate AllIn(k: Class, t: string) {
    forall m :: 0 <= m < |t| ==> In(k, t[m])
  }

  /** The upper bound of a counted repetition (`{1,3}`) or none (`+`, `*`). */
  datatype Bound = Unbounded | AtMost(n: nat)

  predicate Within(n: nat, hi: Bound) {
    hi.Unbounded? || n <= hi.n
  }

  datatype Atom =
    | Text(t: string)                      // literal text
    | Stamp                                // \d{2}/\d{2}/\d{4} - \d{2}:\d{2}:\d{2}
    | Greedy(k: Class, lo: nat, hi: Bound) // [k]{lo,hi}, greedy
    | Lazy(k: Class)                       // [k]+?
    | OneOf(alts: seq<string>)             // (a|b|...), tried left to right

  /** The texts an atom can match, regardless of priority. */
  predicate Fits(a: Atom, p: string) {
    match a
    case Text(t) => p == t
    case Stamp => IsTimestamp(p)
    case Greedy(k, lo, hi) => lo <= |p| && Within(|p|, hi) && AllIn(k, p)
    case Lazy(k) => |p| > 0 && AllIn(k, p)
    case OneOf(alts) => p in alts
  }

  /** `ps` has one fitting piece for each atom of `P` from index `k` on. */
  predicate Fit(P: seq<Atom>, k: nat, ps: seq<string>) {
    k <= |P| && |ps| == |P| - k && forall j :: 0 <= j < |ps| ==> Fits(P[k + j], ps[j])
  }

  function Concat(ps: seq<string>): string {
    if |ps| == 0 then "" else ps[0] + Concat(ps[1..])
  }

  /** `ps` is a way for the atoms of `P` from `k` on to match `s` at offset `i`. */
  predicate Splits(P: seq<Atom>, k: nat, s: string, i: nat, ps: seq<string>) {
    Fit(P, k, ps) && At(s, i, Concat(ps))
  }

  lemma SplitsCons(P: seq<Atom>, k: nat, s: string, i: nat, p: string, ps: seq<string>)
    requires k < |P| && Fits(P[k], p) && At(s, i, p) && Splits(P, k + 1, s, i + |p|, ps)
    ensures Splits(P, k, s, i, [p] + ps)
  {
    assert ([p] + ps)[1..] == ps;
    AtJoin(s, i, p, Concat(ps));
    forall j | 0 <= j < |[p] + ps|
      ensures Fits(P[k + j], ([p] + ps)[j])
    {
      if j > 0 {
        assert Fits(P[k + 1 + (j - 1)], ps[j - 1]);
      }
    }
  }

  lemma SplitsHead(P: seq<Atom>, k: nat, s: string, i: nat, ps: seq<string>)
    requires k < |P| && Splits(P, k, s, i, ps)
    ensures Fits(P[k], ps[0]) && At(s, i, ps[0])
    ensures Splits(P, k + 1, s, i + |ps[0]|, ps[1..])
  {
    assert Fits(P[k + 0], ps[0]);
    AtCat(s, i, ps[0], Concat(ps[1..]));
    forall j | 0 <= j < |ps[1..]|
      ensures Fits(P[k + 1 + j], ps[1..][j])
    {
      assert Fits(P[k + (j + 1)], ps[j + 1]);
    }
  }

  lemma AllInShrink(k: Class, s: string, i: nat, j: nat)
    requires i < j <= |s| && AllIn(k, s[i..j])
    ensures AllIn(k, s[i..j - 1])
  {
    var t, u := s[i..j - 1], s[i..j];
    forall m | 0 <= m < |t|
      ensures In(k, t[m])
    {
      assert t[m] == u[m];
    }
  }

  lemma AllInGrow(k: Class, s: string, i: nat, j: nat)
    requires i < j <= |s| && AllIn(k, s[i..j - 1]) && In(k, s[j - 1])
    ensures AllIn(k, s[i..j])
  {
    var t, u := s[i..j - 1], s[i..j];
    forall m | 0 <= m < |u|
      ensures In(k, u[m])
    {
      if m < |t| {
        assert u[m] == t[m];
      }
    }
  }

  /** The end of the longest run of class `k` from `i` that the bound allows. */
  function Reach(s: string, i: nat, k: Class, hi: Bound): (j: nat)
    requires i <= |s|
    ensures i <= j <= |s| && AllIn(k, s[i..j]) && Within(j - i, hi)
    ensures forall e :: j < e <= |s| && Within(e - i, hi) ==> !AllIn(k, s[i..e])
    decreases |s| - i
  {
    if i < |s| && In(k, s[i]) && (hi.Unbounded? || hi.n > 0) then
      var j := Reach(s, i + 1, k, if hi.Unbounded? then hi else AtMost(hi.n - 1));
      assert forall e :: j < e <= |s| && AllIn(k, s[i..e]) ==> AllIn(k, s[i + 1..e]) by {
        forall e | j < e <= |s| && AllIn(k, s[i..e])
          ensures AllIn(k, s[i + 1..e])
        {
          var t, u := s[i + 1..e], s[i..e];
          forall m | 0 <= m < |t|
            ensures In(k, t[m])
          {
            assert t[m] == u[m + 1];
          }
        }
      }
      j
    else
      assert forall e :: i < e <= |s| ==> s[i..e][0] == s[i];
      i
  }

  /** The leftmost-first match of the atoms of `P` from `k` on at offset `i` of `s`. */
  function Match(P: seq<Atom>, k: nat, s: string, i: nat): (r: Option<seq<string>>)
    requires k <= |P| && i <= |s|
    ensures r.Some? ==> Splits(P, k, s, i, r.value)
    decreases |P| - k, 1, 0
  {
    if k == |P| then Some([])
    else
      match P[k]
      case Text(t) =>
        if At(s, i, t) then Then(P, k, s, i, t) else None
      case Stamp =>
        if i + 21 <= |s| && IsTimestamp(s[i..i + 21]) then Then(P, k, s, i, s[i..i + 21]) else None
      case Greedy(c, _, hi) =>
        Longest(P, k, s, i, Reach(s, i, c, hi))
      case Lazy(_) =>
        Shortest(P, k, s, i, i + 1)
      case OneOf(_) =>
        FirstAlt(P, k, s, i, 0)
  }

  /** Atom `k` takes the piece `p` at `i` and the rest of the pattern must follow it. */
  function Then(P: seq<Atom>, k: nat, s: string, i: nat, p: string): (r: Option<seq<string>>)
    requires k < |P| && Fits(P[k], p) && At(s, i, p)
    ensures r.Some? ==> Splits(P, k, s, i, r.value)
    decreases |P| - k, 0, 0
  {
    var rest := Match(P, k + 1, s, i + |p|);
    if rest.None? then None
    else
      SplitsCons(P, k, s, i, p, rest.value);
      Some([p] + rest.value)
  }

  /** A greedy atom tries the run ending at `j` first, then shorter ones. */
  function Longest(P: seq<Atom>, k: nat, s: string, i: nat, j: nat): (r: Option<seq<string>>)
    requires k < |P| && P[k].Greedy? && i <= j <= |s|
    requires AllIn(P[k].k, s[i..j]) && Within(j - i, P[k].hi)
    ensures r.Some? ==> Splits(P, k, s, i, r.value)
    decreases |P| - k, 0, j + 1
  {
    if j < i + P[k].lo then None
    else
      var r := Then(P, k, s, i, s[i..j]);
      if r.Some? || j == i then r
      else
        AllInShrink(P[k].k, s, i, j);
        Longest(P, k, s, i, j - 1)
  }

  /** A lazy atom tries the run ending at `j` first, then longer ones. */
  function Shortest(P: seq<Atom>, k: nat, s: string, i: nat, j: nat): (r: Option<seq<string>>)
    requires k < |P| && P[k].Lazy? && i < j <= |s| + 1
    requires AllIn(P[k].k, s[i..j - 1])
    ensures r.Some? ==> Splits(P, k, s, i, r.value)
    decreases |P| - k, 0, |s| + 2 - j
  {
    if j > |s| || !In(P[k].k, s[j - 1]) then None
    else
      AllInGrow(P[k].k, s, i, j);
      var r := Then(P, k, s, i, s[i..j]);
      if r.Some? then r else Shortest(P, k, s, i, j + 1)
  }

  /** An alternation tries its alternatives from the `n`th on, in order. */
  function FirstAlt(P: seq<Atom>, k: nat, s: string, i: nat, n: nat): (r: Option<seq<string>>)
    requires k < |P| && P[k].OneOf? && n <= |P[k].alts| && i <= |s|
    ensures r.Some? ==> Splits(P, k, s, i, r.value)
    decreases |P| - k, 0, |P[k].alts| - n + 1
  {
    if n == |P[k].alts| then None
    else
      var a := P[k].alts[n];
      var r := if At(s, i, a) then Then(P, k, s, i, a) else None;
      if r.Some? then r else FirstAlt(P, k, s, i, n + 1)
  }

  /** Completeness: whenever some split of `s` at `i` exists, the matcher finds a match. */
  lemma {:induction false} MatchFinds(P: seq<Atom>, k: nat, s: string, i: nat, ps: seq<string>)
    requires k <= |P| && i <= |s| && Splits(P, k, s, i, ps)
    ensures Match(P, k, s, i).Some?
    decreases |P| - k, 1, 0
  {
    if k < |P| {
      SplitsHead(P, k, s, i, ps);
      var p := ps[0];
      AtIsSlice(s, i, p);
      match P[k]
      case Text(t) =>
        ThenFinds(P, k, s, i, ps);
      case Stamp =>
        ThenFinds(P, k, s, i, ps);
      case Greedy(c, _, hi) =>
        LongestFinds(P, k, s, i, Reach(s, i, c, hi), ps);
      case Lazy(_) =>
        ShortestFinds(P, k, s, i, i + 1, ps);
      case OneOf(alts) =>
        assert p in alts[0..];
        FirstAltFinds(P, k, s, i, 0, ps);
    }
  }

  lemma {:induction false} ThenFinds(P: seq<Atom>, k: nat, s: string, i: nat, ps: seq<string>)
    requires k < |P| && Splits(P, k, s, i, ps)
    ensures Fits(P[k], ps[0]) && At(s, i, ps[0])
    ensures Then(P, k, s, i, ps[0]).Some?
    decreases |P| - k, 0, 0
  {
    SplitsHead(P, k, s, i, ps);
    AtBound(s, i, ps[0]);
    MatchFinds(P, k + 1, s, i + |ps[0]|, ps[1..]);
  }

  lemma {:induction false} LongestFinds(P: seq<Atom>, k: nat, s: string, i: nat, j: nat, ps: seq<string>)
    requires k < |P| && P[k].Greedy? && i <= j <= |s|
    requires AllIn(P[k].k, s[i..j]) && Within(j - i, P[k].hi)
    requires Splits(P, k, s, i, ps) && i + |ps[0]| <= j
    ensures Longest(P, k, s, i, j).Some?
    decreases |P| - k, 0, j + 1
  {
    ThenFinds(P, k, s, i, ps);
    AtIsSlice(s, i, ps[0]);
    if Then(P, k, s, i, s[i..j]).None? && j > i + |ps[0]| {
      AllInShrink(P[k].k, s, i, j);
      LongestFinds(P, k, s, i, j - 1, ps);
    }
  }

  lemma {:induction false} ShortestFinds(P: seq<Atom>, k: nat, s: string, i: nat, j: nat, ps: seq<string>)
    requires k < |P| && P[k].Lazy? && i < j <= |s| + 1
    requires AllIn(P[k].k, s[i..j - 1])
    requires Splits(P, k, s, i, ps) && j <= i + |ps[0]|
    ensures Shortest(P, k, s, i, j).Some?
    decreases |P| - k, 0, |s| + 2 - j
  {
    ThenFinds(P, k, s, i, ps);
    AtIsSlice(s, i, ps[0]);
    assert s[j - 1] == ps[0][j - 1 - i];
    AllInGrow(P[k].k, s, i, j);
    if Then(P, k, s, i, s[i..j]).None? && j < i + |ps[0]| {
      ShortestFinds(P, k, s, i, j + 1, ps);
    }
  }

  lemma {:induction false} FirstAltFinds(P: seq<Atom>, k: nat, s: string, i: nat, n: nat, ps: seq<string>)
    requires k < |P| && P[k].OneOf? && n <= |P[k].alts| && i <= |s|
    requires Splits(P, k, s, i, ps) && ps[0] in P[k].alts[n..]
    ensures FirstAlt(P, k, s, i, n).Some?
    decreases |P| - k, 0, |P[k].alts| - n + 1
  {
    ThenFinds(P, k, s, i, ps);
    var a := P[k].alts[n];
    if a != ps[0] {
      assert ps[0] in P[k].alts[n + 1..];
      if !(At(s, i, a) && Then(P, k, s, i, a).Some?) {
        FirstAltFinds(P, k, s, i, n + 1, ps);
      }
    }
  }

  /** No alternative is a prefix of another (nor a duplicate of one). */
  predicate PrefixFree(alts: seq<string>) {
    forall m, n :: 0 <= m < |alts| && 0 <= n < |alts| && m != n ==> !(alts[m] <= alts[n])
  }

  /** No character is in both classes; decided through a class that is a single character. */
  predicate Apart(a: Class, b: Class) {
    if a.Only? then !In(b, a.c) else b.Only? && !In(a, b.c)
  }

  /** Every text atom `b` fits is non-empty and starts with a character outside `c`. */
  predicate Leads(b: Atom, c: Class) {
    match b
    case Text(t) => |t| > 0 && !In(c, t[0])
    case Greedy(c2, lo, _) => lo > 0 && Apart(c2, c)
    case _ => false
  }

  /** Atom `j` of `P` can match in at most one way: a greedy run is followed by an atom
      that stops it, there is no lazy atom, and alternatives are prefix-free. */
  predicate DetAt(P: seq<Atom>, j: nat)
    requires j < |P|
  {
    match P[j]
    case Greedy(c, _, _) => j + 1 < |P| && Leads(P[j + 1], c)
    case Lazy(_) => false
    case OneOf(alts) => PrefixFree(alts)
    case _ => true
  }

  predicate Det(P: seq<Atom>) {
    forall j :: 0 <= j < |P| ==> DetAt(P, j)
  }

  lemma DetJoin(P: seq<Atom>, Q: seq<Atom>)
    requires Det(P) && Det(Q)
    ensures Det(P + Q)
  {
    forall j | 0 <= j < |P + Q|
      ensures DetAt(P + Q, j)
    {
      if j < |P| {
        assert DetAt(P, j);
      } else {
        assert DetAt(Q, j - |P|);
        assert (P + Q)[j] == Q[j - |P|];
        if j + 1 < |P + Q| {
          assert (P + Q)[j + 1] == Q[j - |P| + 1];
        }
      }
    }
  }

  predicate Starts(u: string, c: Class) {
    |u| > 0 && !In(c, u[0])
  }

  lemma LeadsStarts(b: Atom, c: Class, p: string, rest: string)
    requires Leads(b, c) && Fits(b, p)
    ensures Starts(p + rest, c)
  {
    assert (p + rest)[0] == p[0];
  }

  /** A run of class `c` at `i` cannot extend past a piece `p` that is followed by text
      starting outside `c`. */
  lemma StopsRun(c: Class, s: string, i: nat, p: string, q: string, u: string)
    requires At(s, i, p) && At(s, i, q) && At(s, i + |p|, u) && Starts(u, c) && AllIn(c, q)
    ensures |q| <= |p|
  {
    if |p| < |q| {
      AtIndex(s, i, q, |p|);
    }
  }

  /** Two fitting pieces for one atom at the same offset agree when the atom is
      deterministic and, if greedy, both are followed by a character that stops it. */
  lemma HeadUnique(a: Atom, s: string, i: nat, p: string, q: string, u: string, v: string)
    requires Fits(a, p) && Fits(a, q) && At(s, i, p + u) && At(s, i, q + v)
    requires !a.Lazy? && (a.OneOf? ==> PrefixFree(a.alts))
    requires a.Greedy? ==> Starts(u, a.k) && Starts(v, a.k)
    ensures p == q
  {
    AtCat(s, i, p, u);
    AtCat(s, i, q, v);
    AtIsSlice(s, i, p);
    AtIsSlice(s, i, q);
    match a
    case Greedy(c, _, _) =>
      StopsRun(c, s, i, p, q, u);
      StopsRun(c, s, i, q, p, v);
    case OneOf(alts) =>
      assert p <= q || q <= p;
    case _ =>
  }

  /** The head piece of a split is followed by text that stops a greedy head atom. */
  lemma SplitsStarts(P: seq<Atom>, k: nat, s: string, i: nat, ps: seq<string>)
    requires k < |P| && DetAt(P, k) && P[k].Greedy? && Splits(P, k, s, i, ps)
    ensures Starts(Concat(ps[1..]), P[k].k)
  {
    SplitsHead(P, k, s, i, ps);
    SplitsHead(P, k + 1, s, i + |ps[0]|, ps[1..]);
    LeadsStarts(P[k + 1], P[k].k, ps[1..][0], Concat(ps[1..][1..]));
  }

  /** Uniqueness: a deterministic pattern splits a text at an offset in at most one way. */
  lemma {:induction false} Unique(P: seq<Atom>, k: nat, s: string, i: nat, ps: seq<string>, qs: seq<string>)
    requires k <= |P| && forall j :: k <= j < |P| ==> DetAt(P, j)
    requires Splits(P, k, s, i, ps) && Splits(P, k, s, i, qs)
    ensures ps == qs
    decreases |P| - k
  {
    if k < |P| {
      SplitsHead(P, k, s, i, ps);
      SplitsHead(P, k, s, i, qs);
      assert DetAt(P, k);
      if P[k].Greedy? {
        SplitsStarts(P, k, s, i, ps);
        SplitsStarts(P, k, s, i, qs);
      }
      HeadUnique(P[k], s, i, ps[0], qs[0], Concat(ps[1..]), Concat(qs[1..]));
      Unique(P, k + 1, s, i + |ps[0]|, ps[1..], qs[1..]);
      assert ps == [ps[0]] + ps[1..];
      assert qs == [qs[0]] + qs[1..];
    }
  }

  /** For a deterministic pattern the matcher returns exactly the split that exists. */
  lemma MatchExact(P: seq<Atom>, s: string, i: nat, ps: seq<string>)
    requires Det(P) && i <= |s| && Splits(P, 0, s, i, ps)
    ensures Match(P, 0, s, i) == Some(ps)
  {
    MatchFinds(P, 0, s, i, ps);
    Unique(P, 0, s, i, Match(P, 0, s, i).value, ps);
  }

  /** Two patterns that agree, deterministically, up to atom `m` and there require texts
      starting with different characters never both split one text at one offset. */
  lemma {:induction false} Exclusive(P: seq<Atom>, Q: seq<Atom>, m: nat, k: nat, s: string, i: nat, ps: seq<string>, qs: seq<string>)
    requires k <= m < |P| && m < |Q| && P[..m] == Q[..m]
    requires forall j :: k <= j < m ==> DetAt(P, j) && DetAt(Q, j)
    requires P[m].Text? && Q[m].Text? && |P[m].t| > 0 && |Q[m].t| > 0 && P[m].t[0] != Q[m].t[0]
    ensures !(Splits(P, k, s, i, ps) && Splits(Q, k, s, i, qs))
    decreases m - k
  {
    if Splits(P, k, s, i, ps) && Splits(Q, k, s, i, qs) {
      SplitsHead(P, k, s, i, ps);
      SplitsHead(Q, k, s, i, qs);
      if k < m {
        assert P[k] == P[..m][k] == Q[k];
        assert DetAt(P, k) && DetAt(Q, k);
        if P[k].Greedy? {
          SplitsStarts(P, k, s, i, ps);
          SplitsStarts(Q, k, s, i, qs);
        }
        HeadUnique(P[k], s, i, ps[0], qs[0], Concat(ps[1..]), Concat(qs[1..]));
        Exclusive(P, Q, m, k + 1, s, i + |ps[0]|, ps[1..], qs[1..]);
      }
    }
  }
}
