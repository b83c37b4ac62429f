/** Path keys (FKey): a path, cut at its slashes, ordered by depth first and then token by
    token. When that is an order, and when it is not. */
module PathKeys {
  import opened Base
  import opened Keys
  import opened Serial

  datatype FKey = FKey(key: string, tokens: seq<string>)

  // ---------- Cutting at slashes ----------

  /** Where the first '/' is, or the length. */
  function Slash(s: string): (n: nat)
    ensures n <= |s| && '/' !in s[..n] && (n < |s| ==> s[n] == '/')
  {
    if s == "" || s[0] == '/' then 0 else 1 + Slash(s[1..])
  }

  function Split(s: string): seq<string>
    decreases |s|
  {
    if s == "" then [] else
      var n := Slash(s);
      if n == |s| then [s] else [s[..n]] + Split(s[n + 1..])
  }

  /** split_path: getline until the stream has nothing left. */
  method SplitPath(key: string) returns (result: seq<string>)
    ensures result == Split(key)
  {
    result := [];
    var rest := key;
    while rest != ""
      invariant result + Split(rest) == Split(key)
      decreases |rest|
    {
      var n := Slash(rest);
      if n == |rest| {
        result := result + [rest];
        rest := "";
      } else {
        assert result + ([rest[..n]] + Split(rest[n + 1..])) == result + [rest[..n]] + Split(rest[n + 1..]);
        result := result + [rest[..n]];
        rest := rest[n + 1..];
      }
    }
  }

  function Join(tokens: seq<string>): string {
    if tokens == [] then ""
    else if |tokens| == 1 then tokens[0]
    else tokens[0] + "/" + Join(tokens[1..])
  }

  predicate Trailing(s: string) {
    s != "" && s[|s| - 1] == '/'
  }

  /** The tokens determine the path up to one trailing slash. */
  lemma {:induction false} SplitJoin(s: string)
    ensures s == Join(Split(s)) + if Trailing(s) then "/" else ""
    decreases |s|
  {
    if s != "" {
      var n := Slash(s);
      if n < |s| {
        SplitJoin(s[n + 1..]);
        JoinFirst(s[..n], s[n + 1..]);
        assert s == s[..n] + "/" + s[n + 1..];
      } else {
        assert s[|s| - 1] in s[..n];
      }
    }
  }

  lemma {:induction false} JoinFirst(token: string, rest: string)
    requires rest == Join(Split(rest)) + if Trailing(rest) then "/" else ""
    ensures var s := token + "/" + rest; s == Join([token] + Split(rest)) + if Trailing(s) then "/" else ""
  {
  }

  /** How many slashes a path has. */
  function SlashCount(s: string): nat {
    if s == "" then 0 else (if s[0] == '/' then 1 else 0) + SlashCount(s[1..])
  }

  lemma {:induction false} SlashCountFrom(s: string, n: nat)
    requires n <= |s| && '/' !in s[..n]
    ensures SlashCount(s) == SlashCount(s[n..])
  {
    if n > 0 {
      assert s[0] == s[..n][0];
      assert s[1..][..n - 1] == s[..n][1..] && s[1..][n - 1..] == s[n..];
      SlashCountFrom(s[1..], n - 1);
    }
  }

  /** No token holds a slash, and there is one for every slash and one for what is behind
      the last, if anything is. */
  lemma {:induction false} TokensApart(s: string)
    ensures forall i :: 0 <= i < |Split(s)| ==> '/' !in Split(s)[i]
    ensures |Split(s)| == SlashCount(s) + if s == "" || Trailing(s) then 0 else 1
    decreases |s|
  {
    hide Slash;
    if s != "" {
      var n := Slash(s);
      SlashCountFrom(s, n);
      if n < |s| {
        var rest := s[n + 1..];
        assert s[n..][1..] == rest;
        TokensApart(rest);
        assert rest != "" ==> rest[|rest| - 1] == s[|s| - 1];
      } else {
        assert s == s[..n];
        assert s[|s| - 1] in s;
      }
    }
  }

  /** `b` is `a` with a slash behind it. */
  predicate Slashed(a: string, b: string) {
    a != "" && !Trailing(a) && b == a + "/"
  }

  lemma {:induction false} SplitSlashed(a: string)
    requires a != "" && !Trailing(a)
    ensures Split(a + "/") == Split(a)
    decreases |a|
  {
    hide Slash;
    var n := Slash(a);
    SlashSlashed(a);
    var b := a + "/";
    if n == |a| {
      assert b[..n] == a && b[n + 1..] == "";
      assert Split(b) == [a] + Split("");
    } else {
      var rest := a[n + 1..];
      assert rest != "" by {
        assert n == |a| - 1 ==> Trailing(a);
      }
      assert rest[|rest| - 1] == a[|a| - 1];
      SplitSlashed(rest);
      assert b[..n] == a[..n] && b[n + 1..] == rest + "/";
      assert Split(b) == [b[..n]] + Split(b[n + 1..]);
    }
  }

  lemma {:induction false} SlashSlashed(a: string)
    ensures Slash(a + "/") == Slash(a)
  {
    if a != "" && a[0] != '/' {
      assert (a + "/")[1..] == a[1..] + "/";
      SlashSlashed(a[1..]);
    }
  }

  /** Different paths have the same tokens exactly when a trailing slash is all that
      distinguishes them. */
  lemma {:induction false} SameTokens(a: string, b: string)
    ensures a != b && Split(a) == Split(b) <==> Slashed(a, b) || Slashed(b, a)
  {
    SplitJoin(a);
    SplitJoin(b);
    if Slashed(a, b) {
      SplitSlashed(a);
    }
    if Slashed(b, a) {
      SplitSlashed(b);
    }
  }

  // ---------- Comparing ----------

  /** operator< on std::string. */
  predicate StringLess(a: string, b: string) {
    b != "" && (a == "" || a[0] < b[0] || (a[0] == b[0] && StringLess(a[1..], b[1..])))
  }

  lemma {:induction false} StringTrichotomy(a: string, b: string)
    ensures StringLess(a, b) ==> !StringLess(b, a) && a != b
    ensures a != b ==> StringLess(a, b) || StringLess(b, a)
  {
    if a != "" && b != "" && a[0] == b[0] {
      StringTrichotomy(a[1..], b[1..]);
      assert a == [a[0]] + a[1..] && b == [b[0]] + b[1..];
    }
  }

  lemma {:induction false} StringTransitive(a: string, b: string, c: string)
    requires StringLess(a, b) && StringLess(b, c)
    ensures StringLess(a, c)
  {
    if a != "" && a[0] == b[0] == c[0] {
      StringTransitive(a[1..], b[1..], c[1..]);
    }
  }

  /** `a` comes before `b` at position `n`: they agree up to there, and there `a` ends or
      has the smaller character. */
  predicate SmallerAt(a: string, b: string, n: nat) {
    && n <= |a| && n < |b| && a[..n] == b[..n]
    && (n < |a| ==> a[n] < b[n])
  }

  /** Strings are in the order of the dictionary. */
  lemma {:induction false} StringLessIff(a: string, b: string)
    ensures StringLess(a, b) <==> exists n: nat :: SmallerAt(a, b, n)
  {
    if b == "" {
    } else if a == "" || a[0] < b[0] {
      assert SmallerAt(a, b, 0);
    } else {
      if a[0] == b[0] {
        StringLessIff(a[1..], b[1..]);
        if n: nat :| SmallerAt(a[1..], b[1..], n) {
          assert a[..n + 1] == [a[0]] + a[1..][..n] && b[..n + 1] == [b[0]] + b[1..][..n];
          assert SmallerAt(a, b, n + 1);
        }
      }
      if n: nat :| SmallerAt(a, b, n) {
        assert a[..n][0] == a[0] && b[..n][0] == b[0];
        assert a[1..][..n - 1] == a[..n][1..] && b[1..][..n - 1] == b[..n][1..];
        assert SmallerAt(a[1..], b[1..], n - 1);
      }
    }
  }

  /** The loop of operator<: the first tokens that differ decide, and no difference is
      taken for "less". */
  predicate TokensBelow(s: seq<string>, t: seq<string>)
    requires |s| == |t|
  {
    s == [] || (!StringLess(t[0], s[0]) && (StringLess(s[0], t[0]) || TokensBelow(s[1..], t[1..])))
  }

  predicate KeyLess(a: FKey, b: FKey) {
    a.key != b.key &&
    (|a.tokens| < |b.tokens| || (|a.tokens| == |b.tokens| && TokensBelow(a.tokens, b.tokens)))
  }

  /** `i` is the first index at which the tokens differ, and there `s` has the smaller one. */
  ghost predicate FirstBelow(s: seq<string>, t: seq<string>, i: nat) {
    i < |s| == |t| && s[..i] == t[..i] && exists n: nat :: SmallerAt(s[i], t[i], n)
  }

  /** Shallower paths come first, equally deep ones in the order of the first tokens that
      differ; different keys with the same tokens come before each other. */
  ghost predicate ComesBefore(a: FKey, b: FKey) {
    a.key != b.key &&
    (|a.tokens| < |b.tokens| || a.tokens == b.tokens || exists i: nat :: FirstBelow(a.tokens, b.tokens, i))
  }

  lemma {:induction false} TokensBelowIff(s: seq<string>, t: seq<string>)
    requires |s| == |t|
    ensures TokensBelow(s, t) <==> s == t || exists i: nat :: FirstBelow(s, t, i)
  {
    hide StringLess, SmallerAt;
    if s != [] {
      StringTrichotomy(s[0], t[0]);
      StringLessIff(s[0], t[0]);
      if s[0] == t[0] {
        TokensBelowIff(s[1..], t[1..]);
        FirstBelowNext(s, t);
        assert s == [s[0]] + s[1..] && t == [t[0]] + t[1..];
      } else {
        forall i: nat | FirstBelow(s, t, i) ensures i == 0 {
          SameHead(s, t, i);
        }
        assert StringLess(s[0], t[0]) ==> FirstBelow(s, t, 0);
      }
    }
  }

  lemma {:induction false} SameHead(s: seq<string>, t: seq<string>, i: nat)
    requires i <= |s| && i <= |t| && s[..i] == t[..i]
    ensures i > 0 ==> s[0] == t[0]
  {
    if i > 0 {
      assert s[..i][0] == t[..i][0];
    }
  }

  lemma {:induction false} FirstBelowNext(s: seq<string>, t: seq<string>)
    requires |s| == |t| > 0 && s[0] == t[0]
    ensures (exists i: nat :: FirstBelow(s, t, i)) <==> exists i: nat :: FirstBelow(s[1..], t[1..], i)
  {
    hide SmallerAt;
    if i: nat :| FirstBelow(s[1..], t[1..], i) {
      assert s[..i + 1] == [s[0]] + s[1..][..i] && t[..i + 1] == [t[0]] + t[1..][..i];
      assert FirstBelow(s, t, i + 1);
    }
    if i: nat :| FirstBelow(s, t, i) {
      if i == 0 {
        var n: nat :| SmallerAt(s[0], t[0], n);
        NotBelowItself(s[0], n);
      } else {
        assert s[1..][..i - 1] == s[..i][1..] && t[1..][..i - 1] == t[..i][1..];
        assert FirstBelow(s[1..], t[1..], i - 1);
      }
    }
  }

  lemma {:induction false} NotBelowItself(a: string, n: nat)
    ensures !SmallerAt(a, a, n)
  {
  }

  lemma {:induction false} KeyLessIff(a: FKey, b: FKey)
    ensures KeyLess(a, b) <==> ComesBefore(a, b)
  {
    hide FirstBelow, TokensBelow;
    if |a.tokens| == |b.tokens| {
      TokensBelowIff(a.tokens, b.tokens);
    } else {
      assert forall i: nat :: !FirstBelow(a.tokens, b.tokens, i) by {
        UnequalLengths(a.tokens, b.tokens);
      }
    }
  }

  lemma {:induction false} UnequalLengths(s: seq<string>, t: seq<string>)
    requires |s| != |t|
    ensures forall i: nat :: !FirstBelow(s, t, i)
  {
  }

  lemma {:induction false} BelowFrom(s: seq<string>, t: seq<string>, i: nat)
    requires |s| == |t| && i <= |s| && s[..i] == t[..i]
    ensures TokensBelow(s, t) == TokensBelow(s[i..], t[i..])
  {
    if i == 0 {
      assert s[0..] == s && t[0..] == t;
    } else {
      assert s[0] == s[..i][0] == t[..i][0] == t[0];
      StringTrichotomy(s[0], t[0]);
      assert s[1..][..i - 1] == s[..i][1..] == t[..i][1..] == t[1..][..i - 1];
      BelowFrom(s[1..], t[1..], i - 1);
      assert s[1..][i - 1..] == s[i..] && t[1..][i - 1..] == t[i..];
    }
  }

  /** What the loop finds out at the first index it has not passed yet. */
  lemma {:induction false} AtIndex(s: seq<string>, t: seq<string>, i: nat)
    requires |s| == |t| && i < |s| && s[..i] == t[..i]
    ensures StringLess(t[i], s[i]) ==> !TokensBelow(s, t)
    ensures StringLess(s[i], t[i]) ==> TokensBelow(s, t) && !TokensBelow(t, s)
    ensures !StringLess(s[i], t[i]) && !StringLess(t[i], s[i]) ==> s[i] == t[i] && s[..i + 1] == t[..i + 1]
  {
    BelowFrom(s, t, i);
    BelowFrom(t, s, i);
    StringTrichotomy(s[i], t[i]);
    assert s[..i + 1] == s[..i] + [s[i]] && t[..i + 1] == t[..i] + [t[i]];
  }

  lemma {:induction false} PastTheEnd(s: seq<string>, t: seq<string>)
    requires |s| == |t| && s[..|s|] == t[..|s|]
    ensures TokensBelow(s, t)
  {
    BelowFrom(s, t, |s|);
  }

  /** When comparing ends: the index is eight bits wide, so paths of 256 tokens or more
      that agree on the first 256 keep it going round. */
  predicate Decides(a: FKey, b: FKey) {
    || a.key == b.key
    || |a.tokens| != |b.tokens|
    || |a.tokens| < 256
    || exists i :: 0 <= i < 256 && a.tokens[i] != b.tokens[i]
  }

  /** At index `i` the loop neither ends nor returns. */
  predicate GoesOn(a: FKey, b: FKey, i: nat) {
    && i < |a.tokens| == |b.tokens|
    && !StringLess(a.tokens[i], b.tokens[i])
    && !StringLess(b.tokens[i], a.tokens[i])
  }

  /** Otherwise, and only then, no value of the index ends the loop. */
  lemma {:induction false} GoesRound(a: FKey, b: FKey)
    ensures !Decides(a, b) <==> a.key != b.key && forall i: nat :: i < 256 ==> GoesOn(a, b, i)
  {
    if |a.tokens| == |b.tokens| {
      forall i: nat | i < |a.tokens| ensures a.tokens[i] == b.tokens[i] <==> GoesOn(a, b, i) {
        StringTrichotomy(a.tokens[i], b.tokens[i]);
      }
      assert |a.tokens| < 256 ==> !GoesOn(a, b, |a.tokens|);
    } else {
      assert !GoesOn(a, b, 0);
    }
  }

  method Less(a: FKey, b: FKey) returns (r: bool)
    requires Decides(a, b)
    ensures r == KeyLess(a, b) && (r <==> ComesBefore(a, b))
  {
    hide TokensBelow, StringLess, ComesBefore;
    KeyLessIff(a, b);
    if a.key == b.key { return false; }
    if |a.tokens| < |b.tokens| { return true; }
    if |a.tokens| > |b.tokens| { return false; }
    var i := 0;
    while i < |a.tokens|
      invariant i <= |a.tokens| && i < 256 && a.tokens[..i] == b.tokens[..i]
      invariant forall j :: 0 <= j < i ==> a.tokens[j] == b.tokens[j]
      decreases |a.tokens| - i
    {
      AtIndex(a.tokens, b.tokens, i);
      if StringLess(b.tokens[i], a.tokens[i]) { return false; }
      if StringLess(a.tokens[i], b.tokens[i]) { return true; }
      i := (i + 1) % 256;
    }
    PastTheEnd(a.tokens, b.tokens);
    return true;
  }

  method Greater(a: FKey, b: FKey) returns (r: bool)
    requires Decides(a, b)
    ensures r == KeyLess(b, a) && (r <==> ComesBefore(b, a))
  {
    hide TokensBelow, StringLess, ComesBefore;
    KeyLessIff(b, a);
    if a.key == b.key { return false; }
    if |a.tokens| > |b.tokens| { return true; }
    if |a.tokens| < |b.tokens| { return false; }
    var i := 0;
    while i < |a.tokens|
      invariant i <= |a.tokens| && i < 256 && a.tokens[..i] == b.tokens[..i]
      invariant forall j :: 0 <= j < i ==> a.tokens[j] == b.tokens[j]
      decreases |a.tokens| - i
    {
      AtIndex(b.tokens, a.tokens, i);
      if StringLess(a.tokens[i], b.tokens[i]) { return false; }
      if StringLess(b.tokens[i], a.tokens[i]) { return true; }
      i := (i + 1) % 256;
    }
    PastTheEnd(b.tokens, a.tokens);
    return true;
  }

  // ---------- Order ----------

  lemma {:induction false} BelowTotal(s: seq<string>, t: seq<string>)
    requires |s| == |t|
    ensures TokensBelow(s, t) || TokensBelow(t, s)
    ensures TokensBelow(s, t) && TokensBelow(t, s) <==> s == t
  {
    if s != [] {
      StringTrichotomy(s[0], t[0]);
      BelowTotal(s[1..], t[1..]);
      assert s == [s[0]] + s[1..] && t == [t[0]] + t[1..];
    }
  }

  lemma {:induction false} BelowTransitive(s: seq<string>, t: seq<string>, u: seq<string>)
    requires |s| == |t| == |u| && TokensBelow(s, t) && TokensBelow(t, u)
    ensures TokensBelow(s, u)
  {
    if s != [] {
      StringTrichotomy(s[0], t[0]);
      StringTrichotomy(t[0], u[0]);
      if StringLess(s[0], t[0]) && StringLess(t[0], u[0]) {
        StringTransitive(s[0], t[0], u[0]);
      }
      StringTrichotomy(s[0], u[0]);
      if s[0] == t[0] == u[0] {
        BelowTransitive(s[1..], t[1..], u[1..]);
      }
    }
  }

  /** FKey(k): the constructor cuts the path. */
  function Made(k: string): FKey {
    FKey(k, Split(k))
  }

  /** Any two different keys compare. They compare both ways round exactly when a
      trailing slash is all that distinguishes them. */
  lemma {:induction false} LessTotal(a: string, b: string)
    ensures a != b ==> KeyLess(Made(a), Made(b)) || KeyLess(Made(b), Made(a))
    ensures KeyLess(Made(a), Made(b)) && KeyLess(Made(b), Made(a)) <==> Slashed(a, b) || Slashed(b, a)
  {
    SameTokens(a, b);
    if |Split(a)| == |Split(b)| {
      BelowTotal(Split(a), Split(b));
    }
  }

  /** "Less" passes on, except back to the key it started from. */
  lemma {:induction false} LessTransitive(a: FKey, b: FKey, c: FKey)
    requires KeyLess(a, b) && KeyLess(b, c)
    ensures KeyLess(a, c) <==> a.key != c.key
  {
    if |a.tokens| == |b.tokens| == |c.tokens| {
      BelowTransitive(a.tokens, b.tokens, c.tokens);
    }
  }

  function PathLess(): (string, string) -> bool {
    (a, b) => KeyLess(Made(a), Made(b))
  }

  lemma {:induction false} LessOrders(keys: set<string>)
    ensures StrictTotalOrder(keys, PathLess()) <==> forall a, b :: a in keys && b in keys ==> !Slashed(a, b)
  {
    var less := PathLess();
    forall a, b | a in keys && b in keys
      ensures a != b ==> less(a, b) || less(b, a)
      ensures less(a, b) && less(b, a) <==> Slashed(a, b) || Slashed(b, a)
    {
      LessTotal(a, b);
    }
    forall a, b, c | a in keys && b in keys && c in keys && less(a, b) && less(b, c)
      ensures less(a, c) <==> a != c
    {
      LessTransitive(Made(a), Made(b), Made(c));
    }
    if StrictTotalOrder(keys, less) {
      forall a, b | a in keys && b in keys ensures !Slashed(a, b) {
        assert less(a, b) ==> !less(b, a);
      }
    }
  }

  /** Different paths, equally deep, that agree on the first 256 tokens. */
  predicate Endless(a: string, b: string) {
    a != b && |Split(a)| == |Split(b)| >= 256 && Split(a)[..256] == Split(b)[..256]
  }

  lemma {:induction false} EndlessIff(a: string, b: string)
    ensures Endless(a, b) <==> !Decides(Made(a), Made(b))
  {
    var s, t := Split(a), Split(b);
    if |s| == |t| >= 256 {
      assert forall i :: 0 <= i < 256 ==> s[..256][i] == s[i] && t[..256][i] == t[i];
      if forall i :: 0 <= i < 256 ==> s[i] == t[i] {
        assert s[..256] == t[..256];
      }
    }
  }

  /** operator< can be evaluated on any two paths of the set. */
  ghost predicate Comparable(keys: set<string>) {
    forall a, b :: a in keys && b in keys ==> Decides(Made(a), Made(b))
  }

  /** operator< returns on any two paths of a set and orders them, exactly when no path is
      in the set both with and without a slash at the end, and no two paths agree on their
      first 256 tokens and go on equally deep. */
  lemma {:induction false} OrderedIff(keys: set<string>)
    ensures Comparable(keys) && StrictTotalOrder(keys, PathLess())
       <==> forall a, b :: a in keys && b in keys ==> !Slashed(a, b) && !Endless(a, b)
  {
    hide Slashed, Endless, Decides, StrictTotalOrder;
    LessOrders(keys);
    forall a, b | a in keys && b in keys ensures Endless(a, b) <==> !Decides(Made(a), Made(b)) {
      EndlessIff(a, b);
    }
  }

  function Slashes(n: nat): string {
    if n == 0 then "" else "/" + Slashes(n - 1)
  }

  lemma {:induction false} SplitSlash(r: string)
    ensures Split("/" + r) == [""] + Split(r)
  {
    var t := "/" + r;
    assert Slash(t) == 0;
    assert t[..0] == "" && t[0 + 1..] == r;
  }

  lemma {:induction false} SplitDeep(n: nat, s: string)
    ensures |Split(Slashes(n) + s)| == n + |Split(s)|
    ensures forall i :: 0 <= i < n ==> Split(Slashes(n) + s)[i] == ""
  {
    hide Split;
    if n == 0 {
      assert Slashes(0) + s == s;
    } else {
      assert Slashes(n) + s == "/" + (Slashes(n - 1) + s);
      SplitDeep(n - 1, s);
      SplitSlash(Slashes(n - 1) + s);
    }
  }

  /** 256 slashes before "a" and before "b": comparing the two never ends. */
  lemma {:induction false} NeverDecides()
    ensures !Decides(Made(Slashes(256) + "a"), Made(Slashes(256) + "b"))
  {
    var a, b := Slashes(256) + "a", Slashes(256) + "b";
    SplitDeep(256, "a");
    SplitDeep(256, "b");
    assert Split("a") == ["a"] && Split("b") == ["b"];
    assert a[|a| - 1] != b[|b| - 1];
  }

  // ---------- Storing ----------

  /** _serialize: the bare path, a space, and the path once more with its length. */
  function WriteKey(k: string): string {
    k + " " + (Decimal(|k|) + "," + k)
  }

  /** _deserialize: a word, and then the path. The tokens of a key that is read stay as
      the default constructor left them. */
  function ReadKey(s: string): Option<(FKey, string)> {
    match ReadWord(s)
    case None => None
    case Some((_, rest)) =>
      match ReadString(rest)
      case None => None
      case Some((k, rest')) => Some((FKey(k, []), rest'))
  }

  /** The path is a single word, possibly with white space around it. */
  predicate OneWord(k: string) {
    var t := SkipSpace(k);
    t != "" && SkipSpace(t[WordRun(t)..]) == ""
  }

  lemma {:induction false} SkipConcat(a: string, b: string)
    ensures SkipSpace(a + b) == if SkipSpace(a) == "" then SkipSpace(b) else SkipSpace(a) + b
  {
    if a == "" {
      assert a + b == b;
    } else {
      assert (a + b)[1..] == a[1..] + b;
      SkipConcat(a[1..], b);
    }
  }

  lemma {:induction false} WordRunConcat(t: string, b: string)
    requires WordRun(t) < |t| || (b != "" && IsSpace(b[0]))
    ensures WordRun(t + b) == WordRun(t)
  {
    if t == "" {
      assert t + b == b;
    } else {
      assert (t + b)[1..] == t[1..] + b;
      if !IsSpace(t[0]) {
        WordRunConcat(t[1..], b);
      }
    }
  }

  /** The first word read is the path's own first word, when it has one. */
  lemma {:induction false} FirstWord(k: string, b: string)
    requires SkipSpace(k) != "" && b != "" && IsSpace(b[0])
    ensures var t := SkipSpace(k); ReadWord(k + b) == Some((t[..WordRun(t)], t[WordRun(t)..] + b))
  {
    var t := SkipSpace(k);
    SkipConcat(k, b);
    WordRunConcat(t, b);
    assert (t + b)[..WordRun(t)] == t[..WordRun(t)];
    assert (t + b)[WordRun(t)..] == t[WordRun(t)..] + b;
  }

  lemma {:induction false} OneWordReads(k: Bytes, s: string)
    requires OneWord(k)
    ensures ReadKey(WriteKey(k) + s) == Some((FKey(k, []), s))
  {
    var body := Decimal(|k|) + "," + k + s;
    assert WriteKey(k) + s == k + (" " + body);
    FirstWord(k, " " + body);
    var t := SkipSpace(k);
    var rest := t[WordRun(t)..] + (" " + body);
    SkipConcat(t[WordRun(t)..], " " + body);
    SkipAfter(" ", body);
    SameSkip(rest, body);
    StringRoundTrip(k, s);
  }

  /** However a length and bytes are read from `u + x`, with `u` starting with something
      and `x` with a space: what is left behind is at least `x` without two characters,
      less the bytes. */
  lemma {:induction false} LeftBehind(u: string, x: string)
    requires SkipSpace(u) != "" && |x| >= 2 && x[0] == ' ' && !IsSpace(x[1])
    ensures var r := ReadString(u + x); r.Some? ==> |r.value.0| + |r.value.1| >= |x| - 2
  {
    var v := SkipSpace(u);
    SkipConcat(u, x);
    var n := DigitRun(v + x);
    assert n <= |v| by {
      assert (v + x)[|v|] == ' ';
    }
    assert (v + x)[n..] == v[n..] + x;
    SkipConcat(v[n..], x);
    assert x == " " + x[1..];
    SkipAfter(" ", x[1..]);
    SkipNothing(x[1..]);
  }

  lemma {:induction false} ManyWords(k: Bytes, s: string)
    requires SkipSpace(k) != "" && !OneWord(k)
    ensures ReadKey(WriteKey(k) + s) != Some((FKey(k, []), s))
  {
    var d := Decimal(|k|);
    var x := " " + d + "," + k + s;
    assert WriteKey(k) + s == k + x;
    FirstWord(k, x);
    var t := SkipSpace(k);
    assert x[1] == d[0];
    LeftBehind(t[WordRun(t)..], x);
    assert |x| == 2 + |d| + |k| + |s|;
  }

  lemma {:induction false} NoWord(k: Bytes, s: string)
    requires SkipSpace(k) == ""
    ensures ReadKey(WriteKey(k) + s) != Some((FKey(k, []), s))
  {
    hide ReadString, WordRun;
    var d := Decimal(|k|);
    var rest := k + s;
    var body := d + "," + rest;
    assert WriteKey(k) + s == k + (" " + body);
    SkipConcat(k, " " + body);
    SkipAfter(" ", body);
    SkipNumber(d, rest);
    TakesTwo(body[WordRun(body)..]);
  }

  lemma {:induction false} SkipNumber(d: string, rest: string)
    requires d != [] && forall i :: 0 <= i < |d| ==> IsDigit(d[i])
    ensures var body := d + "," + rest; SkipSpace(body) == body && WordRun(body) > |d|
  {
  }

  lemma {:induction false} TakesTwo(s: string)
    ensures var r := ReadString(s); r.Some? ==> |r.value.0| + |r.value.1| <= |s| - 2
  {
    SkipShortens(s);
    var t := SkipSpace(s);
    SkipShortens(t[DigitRun(t)..]);
  }

  lemma {:induction false} SkipShortens(s: string)
    ensures |SkipSpace(s)| <= |s|
  {
    if s != "" {
      SkipShortens(s[1..]);
    }
  }

  /** A stored key reads back, and reading stops behind it, exactly when the path is one
      word. */
  lemma {:induction false} KeyRoundTrip(k: Bytes, s: string)
    ensures ReadKey(WriteKey(k) + s) == Some((FKey(k, []), s)) <==> OneWord(k)
  {
    if OneWord(k) {
      OneWordReads(k, s);
    } else if SkipSpace(k) == "" {
      NoWord(k, s);
    } else {
      ManyWords(k, s);
    }
  }

  /** Such as this one. */
  lemma {:induction false} SpaceInPath()
    ensures !OneWord("my file")
  {
  }

  function LoadedLess(): (string, string) -> bool {
    (a, b) => KeyLess(FKey(a, []), FKey(b, []))
  }

  /** Keys that have been read from storage are not ordered: any two different ones are
      each less than the other. */
  lemma {:induction false} LoadedIff(keys: set<string>)
    ensures StrictTotalOrder(keys, LoadedLess()) <==> forall a, b :: a in keys && b in keys ==> a == b
  {
  }
}
