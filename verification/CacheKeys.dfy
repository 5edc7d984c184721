/** The semantic cache's Redis keys and SCAN patterns: which keys a tenant's pattern sees. */
module CacheKeys {

  /** Redis MATCH for patterns of literals, ? and *. */
  predicate Glob(pattern: string, key: string)
    decreases |pattern| + |key|
  {
    if pattern == "" then key == ""
    else if pattern[0] == '*' then Glob(pattern[1..], key) || (key != "" && Glob(pattern, key[1..]))
    else key != "" && (pattern[0] == '?' || pattern[0] == key[0]) && Glob(pattern[1..], key[1..])
  }

  /** Free of every character that MATCH treats specially. */
  predicate Literal(s: string) {
    forall i | 0 <= i < |s| :: s[i] !in "*?[]\\"
  }

  predicate ColonFree(s: string) {
    forall i | 0 <= i < |s| :: s[i] != ':'
  }

  function EntryKey(tenant: string, uid: string): string {
    "cache:" + tenant + ":" + uid
  }

  function Pattern(tenant: string): string {
    "cache:" + tenant + ":*"
  }

  function HitsKey(tenant: string): string {
    EntryKey(tenant, "hits")
  }

  function MissesKey(tenant: string): string {
    EntryKey(tenant, "misses")
  }

  /** What follows the last colon. */
  function Suffix(key: string): string {
    if key == "" || key[|key| - 1] == ':' then "" else Suffix(key[..|key| - 1]) + [key[|key| - 1]]
  }

  predicate IsCounter(key: string) {
    Suffix(key) == "hits" || Suffix(key) == "misses"
  }

  lemma {:induction false} StarMatchesAll(key: string)
    ensures Glob("*", key)
  {
    if key != "" {
      StarMatchesAll(key[1..]);
    } else {
      assert "*"[1..] == "";
    }
  }

  /** A literal followed by * matches exactly the keys it is a prefix of. */
  lemma {:induction false} LiteralThenStar(p: string, key: string)
    requires Literal(p)
    ensures Glob(p + "*", key) <==> p <= key
  {
    if p == "" {
      StarMatchesAll(key);
      assert p + "*" == "*";
    } else {
      assert (p + "*")[1..] == p[1..] + "*";
      if key != "" {
        LiteralThenStar(p[1..], key[1..]);
        assert p <= key <==> p[0] == key[0] && p[1..] <= key[1..];
      }
    }
  }

  lemma PrefixOfJoined(a: string, b: string, uid: string)
    requires ColonFree(uid)
    ensures a + ":" <= b + ":" + uid <==> b == a || a + ":" <= b
  {
    var w, p := b + ":" + uid, a + ":";
    assert p[|a|] == ':' && w[|b|] == ':';
    assert forall i | |b| < i < |w| :: w[i] == uid[i - |b| - 1];
    assert forall i | 0 <= i < |b| :: w[i] == b[i];
    assert forall i | 0 <= i < |a| :: p[i] == a[i];
    if p <= w {
      assert |a| <= |b|;
      assert forall i | 0 <= i < |p| :: w[i] == p[i];
      if |a| == |b| {
        assert forall i | 0 <= i < |a| :: a[i] == b[i];
        assert a == b;
      } else {
        assert p == b[..|p|];
      }
    }
  }

  lemma StripHead(head: string, a: string, b: string)
    ensures head + a <= head + b <==> a <= b
  {
    if a <= b {
      assert head + b == (head + a) + b[|a|..];
    }
    if head + a <= head + b {
      assert forall i | 0 <= i < |a| :: a[i] == (head + a)[|head| + i] == (head + b)[|head| + i];
      assert a == b[..|a|];
    }
  }

  /** The pattern of a literal tenant id sees the entries of another tenant exactly when the
      other's id is the same or continues it after a colon. */
  lemma SeenExactly(tenant: string, other: string, uid: string)
    requires Literal(tenant) && ColonFree(uid)
    ensures Glob(Pattern(tenant), EntryKey(other, uid)) <==> other == tenant || tenant + ":" <= other
  {
    var p := "cache:" + (tenant + ":");
    assert Literal(p) by {
      assert forall i | 6 <= i < |p| - 1 :: p[i] == tenant[i - 6];
    }
    assert Pattern(tenant) == p + "*";
    LiteralThenStar(p, EntryKey(other, uid));
    assert EntryKey(other, uid) == "cache:" + (other + ":" + uid);
    StripHead("cache:", tenant + ":", other + ":" + uid);
    PrefixOfJoined(tenant, other, uid);
  }

  /** Between colon-free ids the pattern separates tenants. */
  lemma TenantsSeparate(tenant: string, other: string, uid: string)
    requires Literal(tenant) && ColonFree(uid) && ColonFree(other)
    ensures Glob(Pattern(tenant), EntryKey(other, uid)) <==> other == tenant
  {
    SeenExactly(tenant, other, uid);
    assert (tenant + ":")[|tenant|] == ':';
  }

  lemma {:induction false} SuffixOfJoined(head: string, uid: string)
    requires ColonFree(uid)
    ensures Suffix(head + ":" + uid) == uid
  {
    var w := head + ":" + uid;
    if uid == "" {
      assert w[|w| - 1] == ':';
    } else {
      SuffixOfJoined(head, uid[..|uid| - 1]);
      assert w[..|w| - 1] == head + ":" + uid[..|uid| - 1];
    }
  }

  /** The name, alone or after a colon. */
  ghost predicate EndsIn(key: string, name: string) {
    key == name || exists head: string :: key == head + ":" + name
  }

  lemma CounterExactly(key: string)
    ensures IsCounter(key) <==> EndsIn(key, "hits") || EndsIn(key, "misses")
  {
    EndsExactly(key, "hits");
    EndsExactly(key, "misses");
  }

  lemma EndsExactly(key: string, name: string)
    requires ColonFree(name)
    ensures Suffix(key) == name <==> EndsIn(key, name)
  {
    SuffixSplits(key);
    SuffixSplits(name);
    if head: string :| key == head + ":" + name {
      SuffixOfJoined(head, name);
    }
  }

  lemma {:induction false} SuffixSplits(key: string)
    ensures ColonFree(Suffix(key))
    ensures if ColonFree(key) then Suffix(key) == key else exists head: string :: key == head + ":" + Suffix(key)
  {
    if key != "" && key[|key| - 1] != ':' {
      var n := |key| - 1;
      SuffixSplits(key[..n]);
      assert key == key[..n] + [key[n]];
      if !ColonFree(key[..n]) {
        var head: string :| key[..n] == head + ":" + Suffix(key[..n]);
        assert key == head + ":" + Suffix(key);
      }
    } else if key != "" {
      assert key == key[..|key| - 1] + ":" + "";
    }
  }

  /** Keys with colon-free endings are different unless tenant and ending agree, whatever the
      tenant ids; so an entry never shares a key with a counter. */
  lemma KeysInjective(tenant: string, uid: string, other: string, uid': string)
    requires ColonFree(uid) && ColonFree(uid')
    ensures EntryKey(tenant, uid) == EntryKey(other, uid') <==> tenant == other && uid == uid'
    ensures IsCounter(EntryKey(tenant, uid)) <==> uid == "hits" || uid == "misses"
  {
    SuffixOfJoined("cache:" + tenant, uid);
    SuffixOfJoined("cache:" + other, uid');
    if EntryKey(tenant, uid) == EntryKey(other, uid') {
      var w := EntryKey(tenant, uid);
      assert w[6..|w| - |uid| - 1] == tenant;
      assert w[6..|w| - |uid'| - 1] == other;
    }
  }
}
