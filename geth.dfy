/** The pure fragments of the geth build recipe (blockchains/geth/geth.go): fake genesis
    accounts, the password file, the unlock list, wallet-address extraction from the output
    of `geth account new`, keystore escaping, the per-node import commands, the enode
    address substitution and the genesis construction. */
module Geth {
  import opened Wrappers
  import opened Text
  import opened State

  // ----- Fake accounts -----

  /** Width of an account address in hexadecimal digits. */
  const AddressDigits: nat := 40

  /** Fake account number i: `0x`, then `%X` of i left-padded with '0' to 40 digits. */
  function FakeAccount(i: nat): string
  {
    "0x" + PadZeros(UpperHex(i), AddressDigits)
  }

  /** A fake account is `0x` followed by upper-case hex digits denoting its number, and it is
      42 characters long exactly when the number fits in 40 hex digits. */
  lemma FakeAccountShape(i: nat)
    ensures |FakeAccount(i)| >= 42 && FakeAccount(i)[..2] == "0x"
    ensures AllUpperHex(FakeAccount(i)[2..]) && HexValue(FakeAccount(i)[2..]) == i
    ensures |FakeAccount(i)| == 42 <==> i < Pow16(AddressDigits)
  {
    var h := UpperHex(i);
    var p := PadZeros(h, AddressDigits);
    assert FakeAccount(i)[2..] == p;
    HexLeadingZeros(|p| - |h|, h);
    HexRoundTrip(i);
    HexLength(i, AddressDigits);
  }

  /** The loop of MakeFakeAccounts: entry k is fake account k + 1. */
  method MakeFakeAccounts(accs: nat) returns (out: seq<string>)
    ensures |out| == accs
    ensures forall k :: 0 <= k < accs ==> out[k] == FakeAccount(k + 1)
  {
    var a := new string[accs];
    var i := 1;
    while i <= accs
      invariant 1 <= i <= accs + 1
      invariant forall k :: 0 <= k < i - 1 ==> a[k] == FakeAccount(k + 1)
    {
      var h := UpperHex(i);
      var acc := h;
      var j := |acc|;
      while j < AddressDigits
        invariant |h| <= j && (|h| <= AddressDigits ==> j <= AddressDigits)
        invariant |h| > AddressDigits ==> j == |h|
        invariant acc == Zeros(j - |h|) + h
      {
        assert "0" + (Zeros(j - |h|) + h) == Zeros(j + 1 - |h|) + h;
        acc := "0" + acc;
        j := j + 1;
      }
      assert acc == PadZeros(h, AddressDigits);
      acc := "0x" + acc;
      a[i - 1] := acc;
      i := i + 1;
    }
    out := a[..];
  }

  /** Fake accounts are pairwise distinct, and the number they spell grows with their own
      number: the list MakeFakeAccounts returns is strictly increasing. */
  lemma FakeAccountsOrdered(i: nat, j: nat)
    requires i < j
    ensures FakeAccount(i) != FakeAccount(j)
    ensures |FakeAccount(i)| >= 2 && |FakeAccount(j)| >= 2
    ensures HexValue(FakeAccount(i)[2..]) < HexValue(FakeAccount(j)[2..])
  {
    FakeAccountShape(i);
    FakeAccountShape(j);
  }

  // ----- Password file -----

  /** One line of the password file. */
  const PasswordLine: string := "second"

  /** `line` and a newline, n times over. */
  function Repeated(line: string, n: nat): string
  {
    if n == 0 then "" else Repeated(line, n - 1) + line + "\n"
  }

  /** The password file for n nodes: the password line once per node. */
  function PasswordText(n: nat): string
  {
    Repeated(PasswordLine, n)
  }

  /** The password-file loop of Build. */
  method PasswordData(nodes: nat) returns (data: string)
    ensures data == PasswordText(nodes)
  {
    data := "";
    var i := 1;
    while i <= nodes
      invariant 1 <= i <= nodes + 1
      invariant data == Repeated(PasswordLine, i - 1)
    {
      data := data + "second\n";
      i := i + 1;
    }
  }

  /** n copies of a line. */
  function Copies(line: string, n: nat): (ls: seq<string>)
    ensures |ls| == n && forall k :: 0 <= k < n ==> ls[k] == line
  {
    seq(n, _ => line)
  }

  lemma {:induction false} RepeatedIsJoin(line: string, n: nat)
    ensures Repeated(line, n) == Join(Copies(line, n) + [""], "\n")
    ensures n >= 1 ==> Repeated(line, n) == Join(Copies(line, n), "\n") + "\n"
  {
    var c := Copies(line, n);
    var parts := c + [""];
    if n >= 1 {
      assert parts[..n] == c;
      assert Join(parts, "\n") == Join(c, "\n") + "\n" + "";
      if n == 1 {
        assert Join(c, "\n") == line;
      } else {
        RepeatedIsJoin(line, n - 1);
        assert c[..n - 1] == Copies(line, n - 1);
        assert Join(c, "\n") == Join(Copies(line, n - 1), "\n") + "\n" + line;
      }
    }
  }

  lemma {:induction false} RepeatedLength(line: string, n: nat)
    ensures |Repeated(line, n)| == (|line| + 1) * n
  {
    if n > 0 {
      RepeatedLength(line, n - 1);
    }
  }

  /** Repeated lines without a newline of their own split back into the lines, with an empty
      remainder after the last newline. */
  lemma RepeatedSplits(line: string, n: nat)
    requires '\n' !in line
    ensures Split(Repeated(line, n), '\n') == Copies(line, n) + [""]
  {
    RepeatedIsJoin(line, n);
    var parts := Copies(line, n) + [""];
    forall k | 0 <= k < |parts| ensures '\n' !in parts[k] {
      if k < n {
        assert parts[k] == line;
      }
    }
    SplitJoin(parts, '\n');
  }

  /** The password file is exactly `n` lines reading "second", with nothing after the last
      newline, 7 characters per node. */
  lemma PasswordFileLines(n: nat)
    ensures Split(PasswordText(n), '\n') == Copies(PasswordLine, n) + [""]
    ensures |PasswordText(n)| == 7 * n
  {
    RepeatedSplits(PasswordLine, n);
    RepeatedLength(PasswordLine, n);
  }

  // ----- Unlock list -----

  /** The unlock loop of Build: the wallets in absolute order, a comma between neighbours. */
  method UnlockList(wallets: seq<string>) returns (unlock: string)
    ensures unlock == Join(wallets, ",")
  {
    unlock := "";
    var i := 0;
    while i < |wallets|
      invariant 0 <= i <= |wallets|
      invariant unlock == Join(wallets[..i], ",")
    {
      assert wallets[..i + 1][..i] == wallets[..i];
      if i != 0 {
        unlock := unlock + ",";
      }
      unlock := unlock + wallets[i];
      i := i + 1;
    }
    assert wallets[..i] == wallets;
  }

  /** The unlock list splits back into the wallets when no wallet contains a comma; in
      particular it has no leading or trailing separator beyond the wallets' own text. */
  lemma UnlockListSplits(wallets: seq<string>)
    requires |wallets| >= 1 && forall k :: 0 <= k < |wallets| ==> ',' !in wallets[k]
    ensures Split(Join(wallets, ","), ',') == wallets
  {
    SplitJoin(wallets, ',');
  }

  // ----- Wallet address extraction -----

  /** The character class `[A-z|0-9]` of the address pattern. The range A-z runs from 'A' to
      'z' in code order, so it also admits `[`, `\`, `]`, `^`, `_` and the backtick. */
  predicate InAddressClass(c: char)
  {
    'A' <= c <= 'z' || c == '|' || '0' <= c <= '9'
  }

  /** The end of the run of class characters starting at i. */
  function ClassRunEnd(s: string, i: nat): (e: nat)
    requires i <= |s|
    ensures i <= e <= |s|
    ensures forall k :: i <= k < e ==> InAddressClass(s[k])
    ensures e == |s| || !InAddressClass(s[e])
    decreases |s| - i
  {
    if i == |s| || !InAddressClass(s[i]) then i else ClassRunEnd(s, i + 1)
  }

  /** The pattern `\{[A-z|0-9]+\}` matches at i. The closing brace is not in the class, so
      the greedy run cannot give anything back: the match is the brace, the whole run of
      class characters after it, which must be non-empty, and a closing brace. */
  predicate AddressMatchAt(s: string, i: nat)
  {
    i < |s| && s[i] == '{'
    && var e := ClassRunEnd(s, i + 1);
       e > i + 1 && e < |s| && s[e] == '}'
  }

  /** The leftmost match at or after i. */
  function FirstAddressMatchFrom(s: string, i: nat): (r: Option<nat>)
    requires i <= |s|
    ensures r.None? <==> forall j :: i <= j < |s| ==> !AddressMatchAt(s, j)
    ensures r.Some? ==> i <= r.value < |s| && AddressMatchAt(s, r.value)
                        && forall j :: i <= j < r.value ==> !AddressMatchAt(s, j)
    decreases |s| - i
  {
    if i == |s| then None
    else if AddressMatchAt(s, i) then Some(i)
    else FirstAddressMatchFrom(s, i + 1)
  }

  const NoAddressError: string := "Unable to get addresses"

  /** The wallet address in the output of `geth account new`: the first match of the address
      pattern with its braces stripped, or the error when there is none. */
  function ExtractAddress(s: string): (r: Result<string>)
    ensures r.Err? ==> r.message == NoAddressError
  {
    match FirstAddressMatchFrom(s, 0)
    case None => Err(NoAddressError)
    case Some(j) => Ok(s[j + 1..ClassRunEnd(s, j + 1)])
  }

  /** Extraction fails exactly when the pattern matches nowhere; otherwise it yields the
      inside of the leftmost match. */
  lemma ExtractAddressIsFirstMatch(s: string)
    ensures ExtractAddress(s).Err? <==> forall j :: 0 <= j < |s| ==> !AddressMatchAt(s, j)
    ensures ExtractAddress(s).Ok? ==>
              exists j :: 0 <= j < |s| && AddressMatchAt(s, j)
                          && (forall i :: 0 <= i < j ==> !AddressMatchAt(s, i))
                          && ExtractAddress(s).value == s[j + 1..ClassRunEnd(s, j + 1)]
  {
    var m := FirstAddressMatchFrom(s, 0);
    if m.Some? {
      var j := m.value;
      assert AddressMatchAt(s, j) && ExtractAddress(s).value == s[j + 1..ClassRunEnd(s, j + 1)];
    }
  }

  /** An extracted address is a non-empty run of class characters; in particular it holds no
      brace and no comma, so the unlock list splits back into the addresses. */
  lemma ExtractedAddressShape(s: string)
    requires ExtractAddress(s).Ok?
    ensures var a := ExtractAddress(s).value;
            |a| >= 1 && (forall k :: 0 <= k < |a| ==> InAddressClass(a[k]))
            && '{' !in a && '}' !in a && ',' !in a
  {
    var j := FirstAddressMatchFrom(s, 0).value;
    var a := ExtractAddress(s).value;
    assert forall k :: 0 <= k < |a| ==> a[k] == s[j + 1 + k];
  }

  /** Text around a braced address is extracted back to the address when nothing before it
      opens a brace. */
  lemma ExtractWrappedAddress(pre: string, a: string, post: string)
    requires '{' !in pre
    requires |a| >= 1 && forall k :: 0 <= k < |a| ==> InAddressClass(a[k])
    ensures ExtractAddress(pre + "{" + a + "}" + post) == Ok(a)
  {
    var s := pre + "{" + a + "}" + post;
    WrappedMatch(s, pre, a, post);
    NoMatchInside(s, pre);
    assert FirstAddressMatchFrom(s, 0) == Some(|pre|);
  }

  /** The braced address after `pre` is a match, and its inside is exactly the address. */
  lemma WrappedMatch(s: string, pre: string, a: string, post: string)
    requires s == pre + "{" + a + "}" + post
    requires |a| >= 1 && forall k :: 0 <= k < |a| ==> InAddressClass(a[k])
    ensures AddressMatchAt(s, |pre|)
    ensures ClassRunEnd(s, |pre| + 1) == |pre| + 1 + |a| && s[|pre| + 1..|pre| + 1 + |a|] == a
  {
    var p := |pre|;
    assert s[p] == '{';
    assert forall k :: 0 <= k < |a| ==> s[p + 1 + k] == a[k];
    assert s[p + 1 + |a|] == '}';
    ClassRunEndAt(s, p + 1, p + 1 + |a|);
  }

  /** No match starts inside a prefix that holds no opening brace. */
  lemma NoMatchInside(s: string, pre: string)
    requires '{' !in pre && pre <= s
    ensures forall j :: 0 <= j < |pre| ==> !AddressMatchAt(s, j)
  {
    forall j | 0 <= j < |pre| ensures !AddressMatchAt(s, j) {
      assert s[j] == pre[j];
    }
  }

  /** A run of class characters that stops at a non-class character is the whole run. */
  lemma {:induction false} ClassRunEndAt(s: string, i: nat, e: nat)
    requires i <= e < |s| && !InAddressClass(s[e])
    requires forall k :: i <= k < e ==> InAddressClass(s[k])
    ensures ClassRunEnd(s, i) == e
    decreases e - i
  {
    if i < e {
      ClassRunEndAt(s, i + 1, e);
    }
  }

  // ----- Keystore escaping -----

  /** strings.Replace(res, `"`, `\"`, -1): every double quote gets a backslash before it. */
  function EscapeQuotes(s: string): (r: string)
    ensures |r| >= |s|
    ensures |r| > 0 ==> r[0] != '"'
    decreases |s|
  {
    if s == [] then ""
    else (if s[0] == '"' then "\\\"" else [s[0]]) + EscapeQuotes(s[1..])
  }

  /** Reading escaped text back: a backslash followed by a double quote stands for the double
      quote; every other character stands for itself. */
  function UnescapeQuotes(s: string): string
    decreases |s|
  {
    if s == [] then ""
    else if |s| >= 2 && s[0] == '\\' && s[1] == '"' then "\"" + UnescapeQuotes(s[2..])
    else [s[0]] + UnescapeQuotes(s[1..])
  }

  /** Escaping loses nothing. */
  lemma {:induction false} EscapeRoundTrip(s: string)
    ensures UnescapeQuotes(EscapeQuotes(s)) == s
    decreases |s|
  {
    if s != [] {
      EscapeRoundTrip(s[1..]);
      var rest := EscapeQuotes(s[1..]);
      if s[0] == '"' {
        assert EscapeQuotes(s) == "\\\"" + rest;
        assert (EscapeQuotes(s))[2..] == rest;
      } else {
        assert EscapeQuotes(s) == [s[0]] + rest;
        assert (EscapeQuotes(s))[1..] == rest;
      }
      assert [s[0]] + s[1..] == s;
    }
  }

  /** Every double quote of r is preceded by a backslash. */
  predicate QuotesPreceded(r: string)
  {
    forall k :: 0 <= k < |r| && r[k] == '"' ==> k > 0 && r[k - 1] == '\\'
  }

  /** Every double quote of the escaped text is preceded by a backslash, so no double quote
      of the keystore ends the double-quoted `echo` argument of the import command early. */
  lemma {:induction false} EscapedQuotesArePreceded(s: string)
    ensures QuotesPreceded(EscapeQuotes(s))
    decreases |s|
  {
    if s != [] {
      EscapedQuotesArePreceded(s[1..]);
      var rest := EscapeQuotes(s[1..]);
      var head := if s[0] == '"' then "\\\"" else [s[0]];
      var r := EscapeQuotes(s);
      assert r == head + rest;
      forall k | 0 <= k < |r| && r[k] == '"' ensures k > 0 && r[k - 1] == '\\' {
        if k < |head| {
          assert r[k] == head[k];
          assert r[0] == head[0];
        } else {
          var m := k - |head|;
          assert r[k] == rest[m];
          if m > 0 {
            assert rest[m - 1] == '\\';
            assert r[k - 1] == rest[m - 1];
          }
        }
      }
    }
  }

  // ----- Import commands -----

  /** The shell command that appends keystore i to a node's keystore directory. */
  function ImportCommand(rawWallet: string, i: nat): string
  {
    "bash -c 'echo \"" + rawWallet + "\">>/geth/keystore/account" + NatToString(i) + "'"
  }

  /** The k-th account imported by node `abs`: the accounts in order, skipping its own. */
  function Skip(abs: nat, k: nat): (i: nat)
    ensures i != abs
    ensures k < abs ==> i == k
  {
    if k < abs then k else k + 1
  }

  /** The import loop of the bootstrapping phase for node `abs`. */
  method ImportCommands(abs: nat, rawWallets: seq<string>) returns (cmds: seq<string>)
    requires abs < |rawWallets|
    ensures |cmds| == |rawWallets| - 1
    ensures forall k :: 0 <= k < |cmds| ==> cmds[k] == ImportCommand(rawWallets[Skip(abs, k)], Skip(abs, k))
  {
    cmds := [];
    var i := 0;
    while i < |rawWallets|
      invariant 0 <= i <= |rawWallets|
      invariant |cmds| == if i <= abs then i else i - 1
      invariant forall k :: 0 <= k < |cmds| ==> cmds[k] == ImportCommand(rawWallets[Skip(abs, k)], Skip(abs, k))
    {
      if i == abs {
        i := i + 1;
        continue;
      }
      cmds := cmds + [ImportCommand(rawWallets[i], i)];
      i := i + 1;
    }
  }

  /** The position at which node `abs` imports account i. */
  function Position(abs: nat, i: nat): nat
    requires i != abs
  {
    if i < abs then i else i - 1
  }

  /** The skipping enumeration visits every other account exactly once: each account but the
      node's own has a position, and positions map to strictly increasing accounts. */
  lemma SkipEnumeratesOthers(abs: nat, n: nat)
    requires abs < n
    ensures forall i :: 0 <= i < n && i != abs ==>
              Position(abs, i) < n - 1 && Skip(abs, Position(abs, i)) == i
    ensures forall k1, k2 :: 0 <= k1 < k2 < n - 1 ==> Skip(abs, k1) < Skip(abs, k2) < n
  {
    forall i | 0 <= i < n && i != abs
      ensures Position(abs, i) < n - 1 && Skip(abs, Position(abs, i)) == i
    {
      if i < abs { assert Position(abs, i) == i; } else { assert Position(abs, i) == i - 1; }
    }
    forall k1, k2 | 0 <= k1 < k2 < n - 1 ensures Skip(abs, k1) < Skip(abs, k2) < n {
      if k2 < abs {
        assert Skip(abs, k1) == k1 && Skip(abs, k2) == k2;
      } else if k1 < abs {
        assert Skip(abs, k1) == k1 && Skip(abs, k2) == k2 + 1;
      } else {
        assert Skip(abs, k1) == k1 + 1 && Skip(abs, k2) == k2 + 1;
      }
    }
  }

  // ----- Enode address substitution -----

  /** The end of the run of decimal digits starting at i. */
  function DigitRunEnd(s: string, i: nat): (e: nat)
    requires i <= |s|
    ensures i <= e <= |s|
    ensures forall k :: i <= k < e ==> IsDigit(s[k])
    ensures e == |s| || !IsDigit(s[e])
    decreases |s| - i
  {
    if i == |s| || !IsDigit(s[i]) then i else DigitRunEnd(s, i + 1)
  }

  lemma {:induction false} DigitRunEndAt(s: string, i: nat, e: nat)
    requires i <= e < |s| && !IsDigit(s[e])
    requires forall k :: i <= k < e ==> IsDigit(s[k])
    ensures DigitRunEnd(s, i) == e
    decreases e - i
  {
    if i < e {
      DigitRunEndAt(s, i + 1, e);
    }
  }

  /** A `[0-9]{1,3}\.` group at the start of t: the length it spans with its dot, or 0. The
      group has to be the whole digit run, since a shorter prefix of the run is followed by a
      digit and not by the dot. */
  function DotGroupLength(t: string): (n: nat)
    ensures n == 0 || 2 <= n <= |t|
  {
    var e := DigitRunEnd(t, 0);
    if 1 <= e <= 3 && e < |t| && t[e] == '.' then e + 1 else 0
  }

  /** Length of the match of `dotted` groups `[0-9]{1,3}\.` and a final `[0-9]{1,3}` at the
      start of t, or 0. The final group takes up to three digits greedily; nothing follows
      it in the pattern, so it never has to give any back. */
  function GroupsMatchLength(t: string, dotted: nat): (n: nat)
    ensures n <= |t|
    ensures n > 0 ==> |t| > 0 && IsDigit(t[0])
    decreases dotted
  {
    if dotted == 0 then Min(DigitRunEnd(t, 0), 3)
    else
      var a := DotGroupLength(t);
      if a == 0 then 0
      else
        var r := GroupsMatchLength(t[a..], dotted - 1);
        if r == 0 then 0 else a + r
  }

  /** Length of the match of `[0-9]{1,3}\.[0-9]{1,3}\.[0-9]{1,3}\.[0-9]{1,3}` at the start
      of t, or 0. */
  function QuadMatchLength(t: string): (n: nat)
    ensures n <= |t|
    ensures n > 0 ==> |t| > 0 && IsDigit(t[0])
  {
    GroupsMatchLength(t, 3)
  }

  /** The literal `[::]` at the start of t. */
  predicate LoopbackAt(t: string)
  {
    |t| >= 4 && t[0] == '[' && t[1] == ':' && t[2] == ':' && t[3] == ']'
  }

  /** Length of the match of the host pattern `\[::\]|(dotted quad)` at the start of t, or 0. */
  function HostMatchLength(t: string): (n: nat)
    ensures n <= |t|
    ensures n > 0 ==> t[0] == '[' || IsDigit(t[0])
  {
    if LoopbackAt(t) then 4 else QuadMatchLength(t)
  }

  /** A pattern as replacement sees it: the length of its leftmost-first match at the start
      of a text, 0 when it does not match there, never longer than the text. */
  ghost predicate IsMatcher(m: string -> nat)
  {
    forall t :: m(t) <= |t|
  }

  /** regexp.ReplaceAllString: every leftmost, non-overlapping match of the pattern is
      replaced by `repl`. The patterns used here never match the empty string, so a position
      without a match is copied and the scan moves on by one. `repl` is inserted literally:
      Go would expand `$` references in it, which an IP address does not contain. */
  function ReplaceAll(t: string, repl: string, m: string -> nat): string
    requires IsMatcher(m)
    decreases |t|
  {
    if |t| == 0 then ""
    else
      var n := m(t);
      if n > 0 then repl + ReplaceAll(t[n..], repl, m)
      else [t[0]] + ReplaceAll(t[1..], repl, m)
  }

  lemma HostMatcher()
    ensures IsMatcher(HostMatchLength)
  {
    forall t ensures HostMatchLength(t) <= |t| {
    }
  }

  /** The host substitution of Build: every `[::]` or dotted quad is replaced by ip. */
  function ReplaceHosts(s: string, ip: string): string
  {
    HostMatcher();
    ReplaceAll(s, ip, HostMatchLength)
  }

  /** The pattern matches at no position of `pre` when `rest` follows it. */
  ghost predicate NoMatchIn(pre: string, rest: string, m: string -> nat)
  {
    forall j :: 0 <= j < |pre| ==> m(pre[j..] + rest) == 0
  }

  /** A stretch where the pattern does not match is copied unchanged. */
  lemma {:induction false} ReplaceSkip(pre: string, rest: string, repl: string, m: string -> nat)
    requires IsMatcher(m) && NoMatchIn(pre, rest, m)
    ensures ReplaceAll(pre + rest, repl, m) == pre + ReplaceAll(rest, repl, m)
    decreases |pre|
  {
    if |pre| > 0 {
      var t := pre + rest;
      assert pre[0..] + rest == t;
      assert t[1..] == pre[1..] + rest;
      forall j | 0 <= j < |pre| - 1 ensures m(pre[1..][j..] + rest) == 0 {
        assert pre[1..][j..] == pre[j + 1..];
      }
      ReplaceSkip(pre[1..], rest, repl, m);
      calc {
        ReplaceAll(t, repl, m);
        [t[0]] + ReplaceAll(pre[1..] + rest, repl, m);
        [pre[0]] + (pre[1..] + ReplaceAll(rest, repl, m));
        { assert [pre[0]] + pre[1..] == pre; }
        pre + ReplaceAll(rest, repl, m);
      }
    } else {
      assert pre + rest == rest;
    }
  }

  /** A match is replaced as a whole. */
  lemma ReplaceMatch(host: string, post: string, repl: string, m: string -> nat)
    requires IsMatcher(m) && m(host + post) == |host| > 0
    ensures ReplaceAll(host + post, repl, m) == repl + ReplaceAll(post, repl, m)
  {
    assert (host + post)[|host|..] == post;
  }

  /** The host of an enode record: the unspecified address `[::]` or a dotted quad. */
  datatype Host = Loopback | Quad(a: string, b: string, c: string, d: string)

  function HostText(h: Host): string
  {
    match h
    case Loopback => "[::]"
    case Quad(a, b, c, d) => a + "." + b + "." + c + "." + d
  }

  predicate QuadGroup(g: string)
  {
    1 <= |g| <= 3 && AllDigits(g)
  }

  /** An enode URL as geth prints it: `enode://<id>@<host>:<port>`. */
  datatype Enode = Enode(id: string, host: Host, port: string)

  /** An enode URL as geth prints it: an id of address-class characters, a `[::]` host or a
      dotted quad of one-to-three-digit groups, and a decimal port. The enode pattern of Build
      accepts more hosts than these (any run of digits and dots). */
  predicate WellFormedEnode(e: Enode)
  {
    && |e.id| >= 1 && (forall k :: 0 <= k < |e.id| ==> InAddressClass(e.id[k]))
    && |e.port| >= 1 && AllDigits(e.port)
    && (e.host.Quad? ==> QuadGroup(e.host.a) && QuadGroup(e.host.b)
                         && QuadGroup(e.host.c) && QuadGroup(e.host.d))
  }

  function EnodeUrl(id: string, host: string, port: string): string
  {
    "enode://" + id + "@" + host + ":" + port
  }

  function EnodeText(e: Enode): string
  {
    EnodeUrl(e.id, HostText(e.host), e.port)
  }

  /** The start of an enode URL up to its host: no position in it starts a host match, as it
      holds no dot and no `[` followed by a colon. */
  lemma PrefixHasNoHost(pre: string, rest: string, j: nat)
    requires '.' !in pre && |pre| >= 1 && !IsDigit(pre[|pre| - 1]) && pre[|pre| - 1] != '['
    requires forall k :: 0 <= k < |pre| - 1 && pre[k] == '[' ==> pre[k + 1] != ':'
    requires j < |pre|
    ensures HostMatchLength((pre + rest)[j..]) == 0
  {
    var s := pre + rest;
    var t := s[j..];
    assert t[0] == pre[j];
    if t[0] == '[' {
      assert t[1] == pre[j + 1];
    }
    if IsDigit(t[0]) {
      var e := DigitRunEnd(t, 0);
      var at := |pre| - 1 - j;
      assert t[at] == pre[|pre| - 1];
      assert e <= at;
      assert t[e] == pre[j + e];
    }
  }

  /** Everything after the host, a colon and the digits of the port, starts no host match. */
  lemma PortHasNoHost(s: string, j: nat)
    requires j < |s| && forall k :: j < k < |s| ==> IsDigit(s[k])
    requires s[j] == ':' || IsDigit(s[j])
    ensures HostMatchLength(s[j..]) == 0
  {
    var t := s[j..];
    if IsDigit(t[0]) {
      assert forall k :: 0 <= k < |t| ==> t[k] == s[j + k];
      assert DigitRunEnd(t, 0) == |t|;
    }
  }

  /** A group of one to three digits followed by a dot is one dotted group. */
  lemma DotGroupOf(g: string, r: string)
    requires QuadGroup(g)
    ensures DotGroupLength(g + "." + r) == |g| + 1
    ensures (g + "." + r)[|g| + 1..] == r
  {
    var t := g + "." + r;
    assert forall k :: 0 <= k < |g| ==> t[k] == g[k];
    assert t[|g|] == '.';
    DigitRunEndAt(t, 0, |g|);
  }

  /** The final group, followed by a colon, spans exactly its digits. */
  lemma LastGroupOf(d: string, rest: string)
    requires QuadGroup(d)
    ensures GroupsMatchLength(d + ":" + rest, 0) == |d|
  {
    var t := d + ":" + rest;
    assert forall k :: 0 <= k < |d| ==> t[k] == d[k];
    assert t[|d|] == ':';
    DigitRunEndAt(t, 0, |d|);
  }

  /** A dotted group in front of a match of the remaining groups extends that match. */
  lemma GroupsStep(g: string, r: string, dotted: nat)
    requires QuadGroup(g) && GroupsMatchLength(r, dotted) > 0
    ensures GroupsMatchLength(g + "." + r, dotted + 1) == |g| + 1 + GroupsMatchLength(r, dotted)
  {
    DotGroupOf(g, r);
  }

  /** A dotted quad followed by a colon matches as a whole. */
  lemma QuadMatchesWhole(a: string, b: string, c: string, d: string, rest: string)
    requires QuadGroup(a) && QuadGroup(b) && QuadGroup(c) && QuadGroup(d)
    ensures QuadMatchLength(a + "." + (b + "." + (c + "." + (d + ":" + rest))))
            == |a| + |b| + |c| + |d| + 3
  {
    var u4 := d + ":" + rest;
    var u3 := c + "." + u4;
    var u2 := b + "." + u3;
    LastGroupOf(d, rest);
    GroupsStep(c, u4, 0);
    GroupsStep(b, u3, 1);
    GroupsStep(a, u2, 2);
  }

  /** The host of a well-formed enode matches as a whole. */
  lemma HostMatchesWhole(h: Host, port: string)
    requires h.Quad? ==> QuadGroup(h.a) && QuadGroup(h.b) && QuadGroup(h.c) && QuadGroup(h.d)
    ensures HostMatchLength(HostText(h) + ":" + port) == |HostText(h)|
  {
    if h.Quad? {
      var t := HostText(h) + ":" + port;
      QuadTextSplit(t, h.a, h.b, h.c, h.d, port);
      QuadMatchesWhole(h.a, h.b, h.c, h.d, port);
    }
  }

  /** A dotted quad followed by a port, grouped the way the matcher consumes it; it starts
      with a digit, so it is not the loopback host. */
  lemma QuadTextSplit(t: string, a: string, b: string, c: string, d: string, port: string)
    requires t == HostText(Quad(a, b, c, d)) + ":" + port && |a| >= 1
    ensures t == a + "." + (b + "." + (c + "." + (d + ":" + port)))
    ensures t[0] == a[0]
  {
  }

  /** The conditions under which no position of `pre` starts a host match. */
  predicate HostFreePrefix(pre: string)
  {
    && '.' !in pre && |pre| >= 1 && !IsDigit(pre[|pre| - 1]) && pre[|pre| - 1] != '['
    && forall k :: 0 <= k < |pre| - 1 && pre[k] == '[' ==> pre[k + 1] != ':'
  }

  /** The part of an enode URL before its host is host-free. */
  lemma EnodePrefixHostFree(pre: string, id: string)
    requires forall k :: 0 <= k < |id| ==> InAddressClass(id[k])
    requires pre == "enode://" + id + "@"
    ensures HostFreePrefix(pre)
  {
    assert '.' !in "enode://" && '[' !in "enode://";
    forall k | 0 <= k < |pre| - 1 && pre[k] == '[' ensures pre[k + 1] != ':' {
      assert pre[k] == id[k - 8];
      if k + 1 < |pre| - 1 {
        assert pre[k + 1] == id[k + 1 - 8];
      }
    }
    forall k | 0 <= k < |pre| ensures pre[k] != '.' {
      if 8 <= k < |pre| - 1 {
        assert pre[k] == id[k - 8];
      }
    }
  }

  /** No position of a host-free prefix starts a host match, whatever follows it. */
  lemma PrefixNoMatch(pre: string, rest: string)
    requires HostFreePrefix(pre)
    ensures NoMatchIn(pre, rest, HostMatchLength)
  {
    forall j | 0 <= j < |pre| ensures HostMatchLength(pre[j..] + rest) == 0 {
      PrefixHasNoHost(pre, rest, j);
      assert (pre + rest)[j..] == pre[j..] + rest;
    }
  }

  /** Replacement in a text where the pattern matches as a whole `host` and at no other
      position before or after it. */
  lemma ReplaceOnce(pre: string, host: string, post: string, repl: string, m: string -> nat)
    requires IsMatcher(m)
    requires NoMatchIn(pre, host + post, m)
    requires m(host + post) == |host| > 0
    requires NoMatchIn(post, "", m)
    ensures ReplaceAll(pre + (host + post), repl, m) == pre + repl + post
  {
    ReplaceSkip(pre, host + post, repl, m);
    ReplaceMatch(host, post, repl, m);
    assert post + "" == post;
    ReplaceSkip(post, "", repl, m);
  }

  /** Placing the enode record of a node: substituting the node's IP for the address in a
      well-formed enode URL replaces exactly its host and keeps the id and the port. */
  lemma EnodeSubstitution(e: Enode, ip: string)
    requires WellFormedEnode(e)
    ensures ReplaceHosts(EnodeText(e), ip) == EnodeUrl(e.id, ip, e.port)
  {
    var pre := "enode://" + e.id + "@";
    var host := HostText(e.host);
    var post := ":" + e.port;
    EnodeSplit(e, ip, pre, host, post);
    EnodeHostMatches(e, pre, host, post);
    PortMatchesNot(e.port);
    HostMatcher();
    ReplaceOnce(pre, host, post, ip, HostMatchLength);
  }

  /** A host the enode pattern accepts but which is not a dotted quad keeps part of its old
      text: in `1.2.3.4.5` only the leading quad `1.2.3.4` is replaced, and `.5` stays. */
  lemma LongHostKeepsTail()
    ensures ReplaceHosts("1.2.3.4" + ".5", "X") == "X" + ".5"
  {
    HostMatcher();
    LongHostMatch();
    ReplaceMatch("1.2.3.4", ".5", "X", HostMatchLength);
    TailNoMatch();
    ReplaceSkip(".5", "", "X", HostMatchLength);
    assert ".5" + "" == ".5";
    assert ReplaceAll("", "X", HostMatchLength) == "";
  }

  /** The leading dotted quad of `1.2.3.4.5` is its whole host match. */
  lemma LongHostMatch()
    ensures HostMatchLength("1.2.3.4" + ".5") == 7
  {
    var t4 := "4.5";
    assert t4[0] == '4' && t4[1] == '.';
    DigitRunEndAt(t4, 0, 1);
    var t3 := "3" + "." + t4;
    GroupsStep("3", t4, 0);
    var t2 := "2" + "." + t3;
    GroupsStep("2", t3, 1);
    var t1 := "1" + "." + t2;
    GroupsStep("1", t2, 2);
    assert GroupsMatchLength(t1, 3) == 7;
    LongHostText(t1);
  }

  lemma LongHostText(t: string)
    requires t == "1" + "." + ("2" + "." + ("3" + "." + "4.5"))
    ensures t == "1.2.3.4" + ".5"
  {
    var u := "1.2.3.4" + ".5";
    assert |t| == 9 == |u|;
    forall k | 0 <= k < 9 ensures t[k] == u[k] {
    }
  }

  /** Nothing in the leftover `.5` matches the host pattern. */
  lemma TailNoMatch()
    ensures NoMatchIn(".5", "", HostMatchLength)
  {
    assert ".5"[0..] + "" == ".5";
    assert ".5"[1..] + "" == "5";
    assert DigitRunEnd("5", 0) == 1 by { assert "5"[1..] == ""; }
  }

  /** An enode URL before and after substitution, cut at its host. */
  lemma EnodeSplit(e: Enode, ip: string, pre: string, host: string, post: string)
    requires pre == "enode://" + e.id + "@" && host == HostText(e.host) && post == ":" + e.port
    ensures EnodeText(e) == pre + (host + post)
    ensures EnodeUrl(e.id, ip, e.port) == pre + ip + post
  {
  }

  /** In a well-formed enode URL the host matches as a whole and nothing before it does. */
  lemma EnodeHostMatches(e: Enode, pre: string, host: string, post: string)
    requires WellFormedEnode(e)
    requires pre == "enode://" + e.id + "@" && host == HostText(e.host) && post == ":" + e.port
    ensures NoMatchIn(pre, host + post, HostMatchLength)
    ensures HostMatchLength(host + post) == |host| > 0
  {
    EnodePrefixHostFree(pre, e.id);
    PrefixNoMatch(pre, host + post);
    HostMatchesWhole(e.host, e.port);
    assert host + ":" + e.port == host + post;
  }

  /** Nothing from the colon before the port to the end matches. */
  lemma PortMatchesNot(port: string)
    requires AllDigits(port)
    ensures NoMatchIn(":" + port, "", HostMatchLength)
  {
    var s := ":" + port;
    forall j | 0 <= j < |s| ensures HostMatchLength(s[j..] + "") == 0 {
      assert forall k :: 0 < k < |s| ==> s[k] == port[k - 1];
      PortHasNoHost(s, j);
      assert s[j..] + "" == s[j..];
    }
  }

  // ----- Genesis -----

  /** The chain configuration Build reads from the request parameters. */
  datatype EthConf = EthConf(
    networkId: int,
    homesteadBlock: int,
    eip155Block: int,
    eip158Block: int,
    difficulty: int,
    gasLimit: int,
    initBalance: string,
    extraAccounts: int,
    maxPeers: int)

  /** `fmt.Sprintf("0x0%X", v)`: a negative value prints its sign after the literal `0x0`. */
  function HexField(v: int): string
  {
    "0x0" + (if v < 0 then "-" + UpperHex(-v) else UpperHex(v))
  }

  /** For a non-negative value the field is `0x` followed by hex digits denoting the value
      (the extra leading zero does not change it); for a negative one it is `0x0-` followed
      by the magnitude. */
  lemma HexFieldValue(v: int)
    ensures |HexField(v)| >= 4 && HexField(v)[..2] == "0x"
    ensures v >= 0 ==> AllUpperHex(HexField(v)[2..]) && HexValue(HexField(v)[2..]) == v
    ensures v < 0 ==> HexField(v)[3] == '-' && AllUpperHex(HexField(v)[4..])
                      && HexValue(HexField(v)[4..]) == -v
  {
    var r := HexField(v);
    if v >= 0 {
      assert r[2..] == Zeros(1) + UpperHex(v);
      HexLeadingZeros(1, UpperHex(v));
      HexRoundTrip(v);
    } else {
      assert r[4..] == UpperHex(-v);
      HexRoundTrip(-v);
    }
  }

  /** The allocation of one account. */
  function Balance(initBalance: string): map<string, string>
  {
    map["balance" := initBalance]
  }

  /** The values createGenesisfile hands to the genesis template. */
  datatype Genesis = Genesis(
    chainId: int,
    homesteadBlock: int,
    eip155Block: int,
    eip158Block: int,
    difficulty: string,
    gasLimit: string,
    alloc: map<string, map<string, string>>)

  /** createGenesisfile up to the template: the header fields and the alloc map, which gives
      every wallet and every fake account the initial balance. */
  method CreateGenesis(conf: EthConf, wallets: seq<string>) returns (g: Genesis)
    requires conf.extraAccounts >= 0
    ensures g.chainId == conf.networkId && g.homesteadBlock == conf.homesteadBlock
    ensures g.eip155Block == conf.eip155Block && g.eip158Block == conf.eip158Block
    ensures g.difficulty == HexField(conf.difficulty) && g.gasLimit == HexField(conf.gasLimit)
    ensures forall key :: key in g.alloc <==>
              key in wallets || exists k :: 1 <= k <= conf.extraAccounts && key == FakeAccount(k)
    ensures forall key :: key in g.alloc ==> g.alloc[key] == Balance(conf.initBalance)
  {
    var alloc: map<string, map<string, string>> := map[];
    var i := 0;
    while i < |wallets|
      invariant 0 <= i <= |wallets|
      invariant forall key :: key in alloc <==> key in wallets[..i]
      invariant forall key :: key in alloc ==> alloc[key] == Balance(conf.initBalance)
    {
      assert wallets[..i + 1] == wallets[..i] + [wallets[i]];
      alloc := alloc[wallets[i] := Balance(conf.initBalance)];
      i := i + 1;
    }
    assert wallets[..i] == wallets;
    var accs := MakeFakeAccounts(conf.extraAccounts);
    var j := 0;
    while j < |accs|
      invariant 0 <= j <= |accs|
      invariant forall key :: key in alloc <==>
                  key in wallets || exists k :: 1 <= k <= j && key == FakeAccount(k)
      invariant forall key :: key in alloc ==> alloc[key] == Balance(conf.initBalance)
    {
      alloc := alloc[accs[j] := Balance(conf.initBalance)];
      j := j + 1;
    }
    g := Genesis(conf.networkId, conf.homesteadBlock, conf.eip155Block, conf.eip158Block,
                 HexField(conf.difficulty), HexField(conf.gasLimit), alloc);
  }
}
