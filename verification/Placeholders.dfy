/** Single-pass substitution of `{word}` placeholders: the regular expression replacement
    at the end of PromptRegistry.load. */
module Placeholders {

  /** The regular expression's word characters. Which characters beyond ASCII count is left
      open: all that matters is that braces do not and that some character does. */
  type WordClass = w: char -> bool | w('a') && !w('{') && !w('}') witness (c: char) => c == 'a'

  type Vars = map<string, string>

  predicate AllWord(w: WordClass, s: string) {
    forall i | 0 <= i < |s| :: w(s[i])
  }

  ghost predicate Braceless(s: string) {
    forall i | 0 <= i < |s| :: s[i] != '{' && s[i] != '}'
  }

  ghost predicate BracelessValues(vars: Vars) {
    forall k | k in vars :: Braceless(vars[k])
  }

  /** The regular expression matches t[i..j + 1]. */
  ghost predicate Occurs(w: WordClass, t: string, i: nat, j: nat) {
    && i + 2 <= j < |t|
    && t[i] == '{' && t[j] == '}'
    && forall k | i < k < j :: w(t[k])
  }

  function WordRun(w: WordClass, s: string): (n: nat)
    ensures n <= |s| && AllWord(w, s[..n])
    ensures n < |s| ==> !w(s[n])
  {
    if s == "" || !w(s[0]) then 0 else
      var n := WordRun(w, s[1..]);
      assert s[..n + 1] == [s[0]] + s[1..][..n];
      n + 1
  }

  /** The scanner's test: a placeholder stands at the head of s. */
  predicate HoleAtHead(w: WordClass, s: string) {
    && s != "" && s[0] == '{'
    && var n := WordRun(w, s[1..]);
       n >= 1 && n + 1 < |s| && s[n + 1] == '}'
  }

  function HeadKey(w: WordClass, s: string): (key: string)
    requires HoleAtHead(w, s)
    ensures key != "" && AllWord(w, key) && |key| + 2 <= |s|
  {
    s[1..][..WordRun(w, s[1..])]
  }

  /** How far one scanning step moves: over a whole placeholder, or one character. */
  function HeadLen(w: WordClass, t: string): (n: nat)
    requires t != ""
    ensures 1 <= n <= |t|
  {
    if HoleAtHead(w, t) then |HeadKey(w, t)| + 2 else 1
  }

  /** What the replacement callback returns for a matched key. */
  function Replacement(key: string, vars: Vars): string {
    if key in vars then vars[key] else "{" + key + "}"
  }

  function HeadText(w: WordClass, t: string, vars: Vars): string
    requires t != ""
  {
    if HoleAtHead(w, t) then Replacement(HeadKey(w, t), vars) else [t[0]]
  }

  /** The left-to-right, non-overlapping replacement. */
  function Substitute(w: WordClass, t: string, vars: Vars): string {
    if t == "" then "" else HeadText(w, t, vars) + Substitute(w, t[HeadLen(w, t)..], vars)
  }

  // ----- What the scan finds -----

  lemma {:induction false} WordRunIs(w: WordClass, s: string, n: nat)
    requires n <= |s| && AllWord(w, s[..n])
    requires n < |s| ==> !w(s[n])
    ensures WordRun(w, s) == n
  {
    if n > 0 {
      assert s[..n][0] == s[0] && s[1..][..n - 1] == s[..n][1..];
      WordRunIs(w, s[1..], n - 1);
    }
  }

  lemma HeadOccurs(w: WordClass, t: string, j: nat)
    ensures Occurs(w, t, 0, j) <==> HoleAtHead(w, t) && j == |HeadKey(w, t)| + 1
  {
    if Occurs(w, t, 0, j) {
      WordRunIs(w, t[1..], j - 1);
    }
    if HoleAtHead(w, t) && j == |HeadKey(w, t)| + 1 {
      assert forall k | 0 < k < j :: t[k] == HeadKey(w, t)[k - 1];
    }
  }

  lemma HoleIffOccurs(w: WordClass, t: string)
    ensures HoleAtHead(w, t) <==> exists j: nat :: Occurs(w, t, 0, j)
  {
    if HoleAtHead(w, t) {
      HeadOccurs(w, t, |HeadKey(w, t)| + 1);
    }
    forall j: nat | Occurs(w, t, 0, j) ensures HoleAtHead(w, t) {
      HeadOccurs(w, t, j);
    }
  }

  lemma OccursShift(w: WordClass, t: string, n: nat, i: nat, j: nat)
    requires n <= |t|
    ensures Occurs(w, t[n..], i, j) <==> Occurs(w, t, i + n, j + n)
  {
    assert forall k | i + n < k < |t| :: t[k] == t[n..][k - n];
  }

  /** Occurrences never overlap, so taking the leftmost first loses none of them. */
  lemma OccurrencesDisjoint(w: WordClass, t: string, i: nat, j: nat, i': nat, j': nat)
    requires Occurs(w, t, i, j) && Occurs(w, t, i', j')
    ensures i == i' ==> j == j'
    ensures i < i' ==> j < i'
  {}

  /** No occurrence straddles position k. */
  ghost predicate Cuttable(w: WordClass, t: string, k: nat) {
    forall i: nat, j: nat :: Occurs(w, t, i, j) ==> !(i < k <= j)
  }

  lemma HeadOfPrefix(w: WordClass, t: string, k: nat, vars: Vars)
    requires 1 <= k <= |t| && Cuttable(w, t, k)
    ensures HeadText(w, t[..k], vars) == HeadText(w, t, vars)
    ensures HeadLen(w, t[..k]) == HeadLen(w, t) <= k
  {
    if HoleAtHead(w, t) {
      var j := |HeadKey(w, t)| + 1;
      HeadOccurs(w, t, j);
      assert Occurs(w, t, 0, j) && Occurs(w, t[..k], 0, j);
      HeadOccurs(w, t[..k], j);
      assert HeadKey(w, t[..k]) == t[..k][1..j] == t[1..j] == HeadKey(w, t);
    } else {
      NoHeadOfPrefix(w, t, k);
    }
  }

  lemma NoHeadOfPrefix(w: WordClass, t: string, k: nat)
    requires 1 <= k <= |t| && !HoleAtHead(w, t)
    ensures !HoleAtHead(w, t[..k])
  {
    HoleIffOccurs(w, t);
    HoleIffOccurs(w, t[..k]);
    assert forall j: nat :: Occurs(w, t[..k], 0, j) ==> Occurs(w, t, 0, j);
  }

  lemma CutShift(w: WordClass, t: string, k: nat, n: nat)
    requires n <= k <= |t| && Cuttable(w, t, k)
    ensures Cuttable(w, t[n..], k - n)
    ensures t[n..][..k - n] == t[..k][n..] && t[n..][k - n..] == t[k..]
  {
    forall i: nat, j: nat | Occurs(w, t[n..], i, j) ensures !(i < k - n <= j) {
      OccursShift(w, t, n, i, j);
    }
  }

  lemma Associate(a: string, b: string, c: string)
    ensures a + (b + c) == (a + b) + c
  {}

  /** The scan may be cut anywhere outside an occurrence. */
  lemma {:induction false} SubstituteSplit(w: WordClass, t: string, k: nat, vars: Vars)
    requires k <= |t| && Cuttable(w, t, k)
    ensures Substitute(w, t, vars) == Substitute(w, t[..k], vars) + Substitute(w, t[k..], vars)
    decreases |t|
  {
    if k == 0 {
      assert t[..0] == "" && t[0..] == t;
    } else {
      var n := HeadLen(w, t);
      HeadOfPrefix(w, t, k, vars);
      CutShift(w, t, k, n);
      SubstituteSplit(w, t[n..], k - n, vars);
      Associate(HeadText(w, t, vars), Substitute(w, t[..k][n..], vars), Substitute(w, t[k..], vars));
    }
  }

  lemma SubstituteHole(w: WordClass, key: string, s: string, m: Vars)
    requires key != "" && AllWord(w, key)
    ensures Substitute(w, "{" + key + "}" + s, m) == Replacement(key, m) + Substitute(w, s, m)
  {
    var t := "{" + key + "}" + s;
    assert forall k | 0 < k <= |key| :: t[k] == key[k - 1];
    HeadOccurs(w, t, |key| + 1);
    assert t[1..][..|key|] == key;
    assert t[|key| + 2..] == s;
  }

  lemma CutAtOccurrence(w: WordClass, t: string, i: nat, j: nat)
    requires Occurs(w, t, i, j)
    ensures Cuttable(w, t, i) && AllWord(w, t[i + 1..j])
    ensures t[i..] == "{" + t[i + 1..j] + "}" + t[j + 1..]
    ensures t[i..j + 1] == "{" + t[i + 1..j] + "}"
  {
    forall i': nat, j': nat | Occurs(w, t, i', j') ensures !(i' < i <= j') {
      OccurrencesDisjoint(w, t, i', j', i, j);
    }
  }

  /** Every occurrence is replaced by its own value and nothing else: the text before it and
      after it is substituted on its own, and the inserted value is never read again. */
  lemma OccurrenceReplaced(w: WordClass, t: string, vars: Vars, i: nat, j: nat)
    requires Occurs(w, t, i, j)
    ensures Substitute(w, t, vars)
         == Substitute(w, t[..i], vars)
            + ((if t[i + 1..j] in vars then vars[t[i + 1..j]] else t[i..j + 1])
               + Substitute(w, t[j + 1..], vars))
  {
    CutAtOccurrence(w, t, i, j);
    SubstituteSplit(w, t, i, vars);
    SubstituteHole(w, t[i + 1..j], t[j + 1..], vars);
  }

  /** A character outside every occurrence stays, in its place. */
  lemma OtherTextKept(w: WordClass, t: string, vars: Vars, i: nat)
    requires i < |t|
    requires forall i': nat, j': nat :: Occurs(w, t, i', j') ==> !(i' <= i <= j')
    ensures Substitute(w, t, vars)
         == Substitute(w, t[..i], vars) + ([t[i]] + Substitute(w, t[i + 1..], vars))
  {
    SubstituteSplit(w, t, i, vars);
    HoleIffOccurs(w, t[i..]);
    forall j: nat ensures !Occurs(w, t[i..], 0, j) {
      OccursShift(w, t, i, 0, j);
    }
    assert t[i..][1..] == t[i + 1..];
  }

  /** With no variables the template comes back unchanged. */
  lemma {:induction false} EmptyMapIsIdentity(w: WordClass, t: string)
    ensures Substitute(w, t, map[]) == t
  {
    if t != "" {
      EmptyMapIsIdentity(w, t[HeadLen(w, t)..]);
    }
  }

  // ----- Substituting in two rounds -----

  /** s is word characters and placeholders up to a closing brace. */
  predicate Closes(w: WordClass, s: string) {
    s != "" &&
    if s[0] == '}' then true
    else if HoleAtHead(w, s) then Closes(w, s[HeadLen(w, s)..])
    else w(s[0]) && Closes(w, s[1..])
  }

  /** A brace pair around word characters and at least one placeholder stands at the head
      of s, as in `{{service}}`. */
  predicate NestAtHead(w: WordClass, s: string) {
    |s| > 1 && s[0] == '{' && s[1] != '}' && !HoleAtHead(w, s) && Closes(w, s[1..])
  }

  predicate HasNest(w: WordClass, t: string) {
    t != "" && (NestAtHead(w, t) || HasNest(w, t[1..]))
  }

  predicate WordsThenClose(w: WordClass, s: string) {
    s != "" && (s[0] == '}' || (w(s[0]) && WordsThenClose(w, s[1..])))
  }

  lemma {:induction false} WordsThenCloseRun(w: WordClass, s: string)
    ensures WordsThenClose(w, s) <==> WordRun(w, s) < |s| && s[WordRun(w, s)] == '}'
  {
    if s != "" && w(s[0]) {
      WordsThenCloseRun(w, s[1..]);
    }
  }

  lemma {:induction false} WordsThenCloseAppend(w: WordClass, v: string, s: string)
    requires Braceless(v) && WordsThenClose(w, v + s)
    ensures WordsThenClose(w, s)
  {
    if v == "" {
      assert v + s == s;
    } else {
      assert (v + s)[0] == v[0] && (v + s)[1..] == v[1..] + s;
      WordsThenCloseAppend(w, v[1..], s);
    }
  }

  /** A placeholder that the first round creates comes from a nest of the template. */
  lemma {:induction false} CreatedFromNest(w: WordClass, t: string, m: Vars)
    requires BracelessValues(m) && WordsThenClose(w, Substitute(w, t, m))
    ensures Closes(w, t)
    decreases |t|
  {
    var rest := t[HeadLen(w, t)..];
    if HoleAtHead(w, t) {
      var key := HeadKey(w, t);
      if key in m {
        WordsThenCloseAppend(w, m[key], Substitute(w, rest, m));
        CreatedFromNest(w, rest, m);
      }
    } else if t[0] != '}' {
      assert Substitute(w, t, m)[1..] == Substitute(w, rest, m);
      CreatedFromNest(w, rest, m);
    }
  }

  lemma NoHoleCreated(w: WordClass, t: string, m: Vars)
    requires t != "" && !HoleAtHead(w, t) && !NestAtHead(w, t) && BracelessValues(m)
    ensures !HoleAtHead(w, [t[0]] + Substitute(w, t[1..], m))
  {
    var once := Substitute(w, t[1..], m);
    var s := [t[0]] + once;
    assert s[1..] == once;
    if HoleAtHead(w, s) {
      WordsThenCloseRun(w, once);
      CreatedFromNest(w, t[1..], m);
      assert false;
    }
  }

  lemma {:induction false} SubstituteBraceless(w: WordClass, v: string, s: string, m: Vars)
    requires Braceless(v)
    ensures Substitute(w, v + s, m) == v + Substitute(w, s, m)
  {
    if v == "" {
      assert v + s == s;
    } else {
      assert (v + s)[0] == v[0] && (v + s)[1..] == v[1..] + s;
      SubstituteBraceless(w, v[1..], s, m);
      Associate([v[0]], v[1..], Substitute(w, s, m));
      assert v == [v[0]] + v[1..];
    }
  }

  lemma {:induction false} NoNestInTail(w: WordClass, t: string, n: nat)
    requires !HasNest(w, t) && n <= |t|
    ensures !HasNest(w, t[n..])
  {
    if n > 0 {
      NoNestInTail(w, t[1..], n - 1);
      assert t[1..][n - 1..] == t[n..];
    }
  }

  lemma {:induction false} TwoRounds(w: WordClass, t: string, m1: Vars, m2: Vars)
    requires !HasNest(w, t) && BracelessValues(m1) && m1.Keys !! m2.Keys
    ensures Substitute(w, Substitute(w, t, m1), m2) == Substitute(w, t, m1 + m2)
    decreases |t|
  {
    if t != "" {
      var n := HeadLen(w, t);
      NoNestInTail(w, t, n);
      TwoRounds(w, t[n..], m1, m2);
      TwoRoundsHead(w, t, m1, m2, Substitute(w, t[n..], m1));
    }
  }

  lemma TwoRoundsHead(w: WordClass, t: string, m1: Vars, m2: Vars, once: string)
    requires t != "" && !NestAtHead(w, t) && BracelessValues(m1) && m1.Keys !! m2.Keys
    requires once == Substitute(w, t[HeadLen(w, t)..], m1)
    ensures Substitute(w, HeadText(w, t, m1) + once, m2)
         == HeadText(w, t, m1 + m2) + Substitute(w, once, m2)
  {
    if HoleAtHead(w, t) {
      var key := HeadKey(w, t);
      if key in m1 {
        SubstituteBraceless(w, m1[key], once, m2);
      } else {
        SubstituteHole(w, key, once, m2);
      }
    } else {
      NoHoleCreated(w, t, m1);
      assert ([t[0]] + once)[1..] == once;
    }
  }

  // ----- The two rounds disagree as soon as the template has a nest -----

  ghost function Keys(w: WordClass, t: string): set<string> {
    if t == "" then {}
    else (if HoleAtHead(w, t) then {HeadKey(w, t)} else {}) + Keys(w, t[HeadLen(w, t)..])
  }

  /** The key the first round leaves behind a nest's opening brace when it puts v
      everywhere. */
  ghost function NestKey(w: WordClass, s: string, v: string): string
    requires Closes(w, s)
  {
    if s[0] == '}' then ""
    else (if HoleAtHead(w, s) then v else [s[0]]) + NestKey(w, s[HeadLen(w, s)..], v)
  }

  ghost function AfterNest(w: WordClass, s: string): string
    requires Closes(w, s)
  {
    if s[0] == '}' then s[1..] else AfterNest(w, s[HeadLen(w, s)..])
  }

  lemma {:induction false} NestRendered(w: WordClass, s: string, m: Vars, v: string)
    requires Closes(w, s) && AllWord(w, v)
    requires forall k | k in Keys(w, s) :: k in m && m[k] == v
    ensures AllWord(w, NestKey(w, s, v))
    ensures Substitute(w, s, m) == NestKey(w, s, v) + ("}" + Substitute(w, AfterNest(w, s), m))
    decreases |s|
  {
    if s[0] != '}' {
      var rest := s[HeadLen(w, s)..];
      NestRendered(w, rest, m, v);
      Associate(HeadText(w, s, m), NestKey(w, rest, v), "}" + Substitute(w, AfterNest(w, s), m));
    }
  }

  lemma {:induction false} NestKeyLong(w: WordClass, s: string, v: string)
    requires Closes(w, s) && !WordsThenClose(w, s)
    ensures |NestKey(w, s, v)| >= |v|
    decreases |s|
  {
    if !HoleAtHead(w, s) {
      NestKeyLong(w, s[1..], v);
    }
  }

  /** Erasing one key never lengthens a text, and shortens it where the key occurs. */
  lemma {:induction false} EraseShortens(w: WordClass, t: string, key: string)
    ensures |Substitute(w, t, map[key := ""])| <= |t|
    ensures key in Keys(w, t) ==> |Substitute(w, t, map[key := ""])| < |t|
    decreases |t|
  {
    if t != "" {
      EraseShortens(w, t[HeadLen(w, t)..], key);
    }
  }

  ghost function Longest(ks: set<string>): (n: nat)
    ensures forall k | k in ks :: |k| <= n
  {
    if ks == {} then 0 else
      var k :| k in ks;
      var n := Longest(ks - {k});
      if |k| > n then |k| else n
  }

  lemma {:induction false} UnusedKey(w: WordClass, t: string, m: Vars, key: string, v: string)
    requires key !in Keys(w, t)
    ensures Substitute(w, t, m[key := v]) == Substitute(w, t, m)
    decreases |t|
  {
    if t != "" {
      UnusedKey(w, t[HeadLen(w, t)..], m, key, v);
    }
  }

  lemma {:induction false} KeysAfterBraceless(w: WordClass, v: string, s: string)
    requires Braceless(v)
    ensures Keys(w, v + s) == Keys(w, s)
  {
    if v == "" {
      assert v + s == s;
    } else {
      assert (v + s)[0] == v[0] && (v + s)[1..] == v[1..] + s;
      KeysAfterBraceless(w, v[1..], s);
    }
  }

  /** Where the template has a nest, the first round writes a placeholder of its own. */
  lemma {:induction false} NestCreatesKey(w: WordClass, t: string, m: Vars, v: string)
    returns (key: string)
    requires HasNest(w, t) && v != "" && AllWord(w, v) && Braceless(v)
    requires forall k | k in Keys(w, t) :: k in m && m[k] == v
    ensures |key| >= |v| && key in Keys(w, Substitute(w, t, m))
    decreases |t|
  {
    var n := HeadLen(w, t);
    if NestAtHead(w, t) {
      key := NestCreatesHead(w, t, m, v);
    } else {
      NestAfter(w, t, n);
      key := NestCreatesKey(w, t[n..], m, v);
      var rest := Substitute(w, t[n..], m);
      if HoleAtHead(w, t) {
        KeysAfterBraceless(w, v, rest);
      } else {
        KeysAfterCharacter(w, t[0], rest);
      }
    }
  }

  lemma NestCreatesHead(w: WordClass, t: string, m: Vars, v: string) returns (key: string)
    requires NestAtHead(w, t) && v != "" && AllWord(w, v)
    requires forall k | k in Keys(w, t) :: k in m && m[k] == v
    ensures |key| >= |v| && key in Keys(w, Substitute(w, t, m))
  {
    NestRendered(w, t[1..], m, v);
    WordsThenCloseRun(w, t[1..]);
    key := NestKey(w, t[1..], v);
    NestKeyLong(w, t[1..], v);
    var u := "{" + (key + ("}" + Substitute(w, AfterNest(w, t[1..]), m)));
    assert Substitute(w, t, m) == u;
    assert forall k | 0 < k <= |key| :: u[k] == key[k - 1];
    HeadOccurs(w, u, |key| + 1);
    assert u[1..][..|key|] == key;
  }

  /** Putting a character in front of a text hides none of its placeholders. */
  lemma KeysAfterCharacter(w: WordClass, c: char, s: string)
    ensures Keys(w, s) <= Keys(w, [c] + s)
  {
    var t := [c] + s;
    assert t[1..] == s;
    if HoleAtHead(w, t) {
      var n := HeadLen(w, t);
      assert Braceless(t[1..n - 1]) by {
        assert forall i | 0 <= i < n - 2 :: t[1..n - 1][i] == HeadKey(w, t)[i];
      }
      assert s == t[1..n - 1] + ("}" + t[n..]);
      KeysAfterBraceless(w, t[1..n - 1], "}" + t[n..]);
      assert ("}" + t[n..])[1..] == t[n..];
    }
  }

  /** No nest begins inside a placeholder, so a later one begins after it. */
  lemma {:induction false} NestAfter(w: WordClass, t: string, n: nat)
    requires HasNest(w, t) && !NestAtHead(w, t) && 1 <= n <= |t|
    requires forall i | 1 <= i < n :: t[i] != '{'
    ensures HasNest(w, t[n..])
    decreases n
  {
    if n > 1 {
      assert forall i | 1 <= i < n - 1 :: t[1..][i] == t[i + 1];
      NestAfter(w, t[1..], n - 1);
      assert t[1..][n - 1..] == t[n..];
    }
  }

  ghost predicate Composes(w: WordClass, t: string, m1: Vars, m2: Vars) {
    Substitute(w, Substitute(w, t, m1), m2) == Substitute(w, t, m1 + m2)
  }

  /** Rendering with two maps in sequence equals rendering with their union, for all
      disjoint maps whose first has brace-free values, exactly when the template has no
      placeholder inside another brace pair. */
  lemma TwoRoundsExactlyWithoutNest(w: WordClass, t: string)
    ensures !HasNest(w, t) <==>
            forall m1: Vars, m2: Vars | BracelessValues(m1) && m1.Keys !! m2.Keys ::
              Composes(w, t, m1, m2)
  {
    if !HasNest(w, t) {
      forall m1: Vars, m2: Vars | BracelessValues(m1) && m1.Keys !! m2.Keys
        ensures Composes(w, t, m1, m2)
      {
        TwoRounds(w, t, m1, m2);
      }
    } else {
      var m1, m2 := NestBreaksComposition(w, t);
    }
  }

  function Filler(n: nat): (v: string)
    ensures |v| == n && forall i | 0 <= i < n :: v[i] == 'a'
  {
    seq(n, _ => 'a')
  }

  lemma NestBreaksComposition(w: WordClass, t: string) returns (m1: Vars, m2: Vars)
    requires HasNest(w, t)
    ensures BracelessValues(m1) && m1.Keys !! m2.Keys && !Composes(w, t, m1, m2)
  {
    var v := Filler(Longest(Keys(w, t)) + 1);
    m1 := map k | k in Keys(w, t) :: v;
    var key := NestCreatesKey(w, t, m1, v);
    m2 := map[key := ""];
    ErasedDiffers(w, t, m1, key);
  }

  lemma ErasedDiffers(w: WordClass, t: string, m1: Vars, key: string)
    requires key !in m1 && key !in Keys(w, t) && key in Keys(w, Substitute(w, t, m1))
    ensures !Composes(w, t, m1, map[key := ""])
  {
    assert m1 + map[key := ""] == m1[key := ""];
    UnusedKey(w, t, m1, key, "");
    EraseShortens(w, Substitute(w, t, m1), key);
  }

  /** The smallest disagreement: {{a}} with a = b and then b = x. */
  lemma NestedExample(w: WordClass)
    requires w('b')
    ensures Substitute(w, Substitute(w, "{{a}}", map["a" := "b"]), map["b" := "x"]) == "x"
    ensures Substitute(w, "{{a}}", map["a" := "b"] + map["b" := "x"]) == "{b}"
  {
    OneRound(w, map["a" := "b"]);
    OneRound(w, map["a" := "b"] + map["b" := "x"]);
    assert "{b}" == "{" + "b" + "}" + "";
    SubstituteHole(w, "b", "", map["b" := "x"]);
  }

  lemma OneRound(w: WordClass, m: Vars)
    requires "a" in m && m["a"] == "b"
    ensures Substitute(w, "{{a}}", m) == "{b}"
  {
    var t := "{{a}}";
    assert t[1..] == "{" + "a" + "}" + "}" && t[1..][0] == '{';
    assert !HoleAtHead(w, t);
    SubstituteHole(w, "a", "}", m);
    assert Substitute(w, "}", m) == "}";
  }
}
