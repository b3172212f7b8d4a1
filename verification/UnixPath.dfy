/** Matching a unix socket's path against the configured one (ebpf/unix-sock-trace.c). */
module UnixPath {
  import opened Common

  const UNIX_PATH_MAX: nat := 108
  const WORDS: nat := 13  // UNIX_PATH_MAX / 8, rounded down: the last 4 bytes are no whole word

  type PathBuf = b: seq<Octet> | |b| == UNIX_PATH_MAX witness seq(UNIX_PATH_MAX, i => 0)

  // The number of bytes before the first NUL.
  function StrLen(b: seq<Octet>): (n: nat)
    ensures n <= |b|
    ensures n < |b| ==> b[n] == 0
    ensures forall i :: 0 <= i < n ==> b[i] != 0
  {
    if b == [] || b[0] == 0 then 0 else 1 + StrLen(b[1..])
  }

  // The byte-wise meaning: `str` starts with the string in `prefix`.
  predicate Matches(str: seq<Octet>, prefix: seq<Octet>)
    requires |str| == |prefix|
  {
    str[..StrLen(prefix)] == prefix[..StrLen(prefix)]
  }

  // __is_str_prefix
  method IsStrPrefix(str: seq<Octet>, prefix: seq<Octet>, siz: nat) returns (r: bool)
    requires |str| == |prefix| == siz
    ensures r == Matches(str, prefix)
  {
    var i := 0;
    while i < siz && prefix[i] != 0
      invariant i <= StrLen(prefix)
      invariant str[..i] == prefix[..i]
    {
      if str[i] != prefix[i] {
        assert str[..StrLen(prefix)][i] != prefix[..StrLen(prefix)][i];
        return false;
      }
      i := i + 1;
    }
    r := true;
  }

  // The i-th 64-bit word of a buffer. Two words are equal exactly when their bytes are.
  function WordAt(b: PathBuf, i: nat): seq<Octet>
    requires i < WORDS
  {
    b[8 * i..8 * i + 8]
  }

  predicate IsZero(w: seq<Octet>) {
    forall k :: 0 <= k < |w| ==> w[k] == 0
  }

  // What the word loop computes from word i on.
  function WordMatch(path: PathBuf, sock: PathBuf, i: nat): bool
    requires i <= WORDS
    decreases WORDS - i
  {
    if i == WORDS then Matches(path[8 * WORDS..], sock[8 * WORDS..])
    else if IsZero(WordAt(sock, i)) then true
    else if WordAt(path, i) != WordAt(sock, i) then Matches(WordAt(path, i), WordAt(sock, i))
    else WordMatch(path, sock, i + 1)
  }

  // __is_path_matched
  method IsPathMatched(path: PathBuf, sock: PathBuf) returns (r: bool)
    ensures r == WordMatch(path, sock, 0)
  {
    var i := 0;
    while i < WORDS && !IsZero(WordAt(sock, i))
      invariant i <= WORDS
      invariant WordMatch(path, sock, i) == WordMatch(path, sock, 0)
    {
      if WordAt(path, i) != WordAt(sock, i) {
        r := IsStrPrefix(WordAt(path, i), WordAt(sock, i), 8);
        return;
      }
      i := i + 1;
    }
    if i == WORDS {
      r := IsStrPrefix(path[8 * WORDS..], sock[8 * WORDS..], 4);
      return;
    }
    r := true;
  }

  // A configured path on which the word loop goes wrong: past the word with the first NUL it runs
  // on over nonzero words to one that starts with a nonzero byte.
  ghost predicate TrapAt(sock: PathBuf, v: nat) {
    && StrLen(sock) / 8 < v <= WORDS
    && (forall u :: StrLen(sock) / 8 <= u < v ==> HasByte(sock, u))
    && sock[8 * v] != 0
  }

  // A byte of the u-th word is not zero.
  ghost predicate HasByte(sock: PathBuf, u: int) {
    exists k :: 8 * u <= k < 8 * u + 8 && 0 <= k < UNIX_PATH_MAX && sock[k] != 0
  }

  lemma HasByteIsNotZero(sock: PathBuf, u: nat)
    requires u < WORDS
    ensures HasByte(sock, u) <==> !IsZero(WordAt(sock, u))
  {
    if HasByte(sock, u) {
      var k :| 8 * u <= k < 8 * u + 8 && 0 <= k < UNIX_PATH_MAX && sock[k] != 0;
      assert WordAt(sock, u)[k - 8 * u] == sock[k];
    }
    if !IsZero(WordAt(sock, u)) {
      var k :| 0 <= k < 8 && WordAt(sock, u)[k] != 0;
      assert sock[8 * u + k] != 0;
    }
  }

  ghost predicate ZeroPadded(sock: PathBuf) {
    forall i :: StrLen(sock) <= i < UNIX_PATH_MAX ==> sock[i] == 0
  }

  lemma ZeroPaddedHasNoTrap(sock: PathBuf)
    requires ZeroPadded(sock)
    ensures forall v :: !TrapAt(sock, v)
  {
    forall v: nat
      ensures !TrapAt(sock, v)
    {
      if StrLen(sock) / 8 < v <= WORDS {
        assert StrLen(sock) <= 8 * v < UNIX_PATH_MAX;
      }
    }
  }

  // In particular every string that fits, with zeros behind it.
  lemma PaddedHasNoTrap(s: seq<Octet>, sock: PathBuf)
    requires |s| <= UNIX_PATH_MAX && 0 !in s
    requires sock[..|s|] == s && forall i :: |s| <= i < UNIX_PATH_MAX ==> sock[i] == 0
    ensures StrLen(sock) == |s| && forall v :: !TrapAt(sock, v)
  {
    assert forall i :: 0 <= i < |s| ==> sock[i] == s[i] && s[i] in s;
    StrLenIs(sock, |s|);
    ZeroPaddedHasNoTrap(sock);
  }

  // Past the first NUL, on a path that has matched so far, the loop can only answer yes.
  lemma {:induction false} PastTheEnd(path: PathBuf, sock: PathBuf, i: nat)
    requires StrLen(sock) / 8 < i <= WORDS
    requires forall u :: StrLen(sock) / 8 <= u < i ==> !IsZero(WordAt(sock, u))
    requires forall v :: !TrapAt(sock, v)
    ensures WordMatch(path, sock, i)
    decreases WORDS - i
  {
    forall u | StrLen(sock) / 8 <= u < i
      ensures HasByte(sock, u)
    {
      HasByteIsNotZero(sock, u);
    }
    assert !TrapAt(sock, i);
    assert sock[8 * i] == 0;
    if i == WORDS {
      assert sock[8 * i..][0] == 0;
    } else {
      assert WordAt(sock, i)[0] == 0;
      if !IsZero(WordAt(sock, i)) {
        PastTheEnd(path, sock, i + 1);
      }
    }
  }

  lemma StrLenIs(b: seq<Octet>, n: nat)
    requires n <= |b| && (n < |b| ==> b[n] == 0)
    requires forall i :: 0 <= i < n ==> b[i] != 0
    ensures StrLen(b) == n
  {
  }

  // The string in a slice of a buffer that starts within its string.
  lemma StrLenOfSlice(b: seq<Octet>, lo: nat, hi: nat)
    requires lo <= StrLen(b) && lo <= hi <= |b|
    ensures StrLen(b[lo..hi]) == if hi <= StrLen(b) then hi - lo else StrLen(b) - lo
  {
    StrLenIs(b[lo..hi], if hi <= StrLen(b) then hi - lo else StrLen(b) - lo);
  }

  lemma PrefixSplit(a: seq<Octet>, b: seq<Octet>, k: nat, n: nat)
    requires k <= n <= |a| && n <= |b| && a[..k] == b[..k]
    ensures a[..n] == b[..n] <==> a[k..n] == b[k..n]
  {
    assert a[..n] == a[..k] + a[k..n] && b[..n] == b[..k] + b[k..n];
    if a[..n] == b[..n] {
      assert a[k..n] == a[..n][k..] && b[k..n] == b[..n][k..];
    }
  }

  // Matching a slice that starts within the configured string and ends at or past its end, once
  // everything before the slice has matched.
  lemma SliceMatches(path: PathBuf, sock: PathBuf, lo: nat, hi: nat)
    requires lo <= StrLen(sock) <= hi <= UNIX_PATH_MAX
    requires path[..lo] == sock[..lo]
    ensures Matches(path[lo..hi], sock[lo..hi]) == Matches(path, sock)
  {
    var n := StrLen(sock);
    StrLenOfSlice(sock, lo, hi);
    PrefixSplit(path, sock, lo, n);
    assert path[lo..hi][..n - lo] == path[lo..n] && sock[lo..hi][..n - lo] == sock[lo..n];
  }

  // A word that differs wholly within the configured string.
  lemma WordDiffers(path: PathBuf, sock: PathBuf, i: nat)
    requires i < WORDS && 8 * i + 8 <= StrLen(sock)
    requires WordAt(path, i) != WordAt(sock, i)
    ensures !Matches(WordAt(path, i), WordAt(sock, i)) && !Matches(path, sock)
  {
    var n := StrLen(sock);
    StrLenOfSlice(sock, 8 * i, 8 * i + 8);
    assert WordAt(path, i)[..8] == WordAt(path, i) && WordAt(sock, i)[..8] == WordAt(sock, i);
    var k :| 0 <= k < 8 && WordAt(path, i)[k] != WordAt(sock, i)[k];
    assert path[..n][8 * i + k] != sock[..n][8 * i + k];
  }

  lemma {:induction false} WordLoop(path: PathBuf, sock: PathBuf, i: nat)
    requires i <= WORDS && 8 * i <= StrLen(sock)
    requires path[..8 * i] == sock[..8 * i]
    requires forall v :: !TrapAt(sock, v)
    ensures WordMatch(path, sock, i) == Matches(path, sock)
    decreases WORDS - i
  {
    hide Matches, TrapAt, StrLen;
    var n := StrLen(sock);
    if i == WORDS {
      SliceMatches(path, sock, 8 * WORDS, UNIX_PATH_MAX);
      assert path[8 * WORDS..UNIX_PATH_MAX] == path[8 * WORDS..] && sock[8 * WORDS..UNIX_PATH_MAX] == sock[8 * WORDS..];
    } else if IsZero(WordAt(sock, i)) {
      ZeroWordEnds(sock, i);
      AllMatched(path, sock);
    } else if WordAt(path, i) != WordAt(sock, i) {
      if 8 * i + 8 <= n {
        WordDiffers(path, sock, i);
      } else {
        SliceMatches(path, sock, 8 * i, 8 * i + 8);
      }
    } else {
      WordExtends(path, sock, i);
      if 8 * i + 8 <= n {
        WordLoop(path, sock, i + 1);
      } else {
        assert path[..n] == path[..8 * i + 8][..n] && sock[..n] == sock[..8 * i + 8][..n];
        AllMatched(path, sock);
        assert n / 8 == i;
        PastTheEnd(path, sock, i + 1);
      }
    }
  }

  lemma ZeroWordEnds(sock: PathBuf, i: nat)
    requires i < WORDS && 8 * i <= StrLen(sock) && IsZero(WordAt(sock, i))
    ensures StrLen(sock) == 8 * i
  {
    assert WordAt(sock, i)[0] == sock[8 * i];
  }

  lemma WordExtends(path: PathBuf, sock: PathBuf, i: nat)
    requires i < WORDS && path[..8 * i] == sock[..8 * i] && WordAt(path, i) == WordAt(sock, i)
    ensures path[..8 * i + 8] == sock[..8 * i + 8]
  {
    assert path[..8 * i + 8] == path[..8 * i] + WordAt(path, i);
    assert sock[..8 * i + 8] == sock[..8 * i] + WordAt(sock, i);
  }

  lemma AllMatched(path: PathBuf, sock: PathBuf)
    requires path[..StrLen(sock)] == sock[..StrLen(sock)]
    ensures Matches(path, sock)
  {
  }

  // A path on which a trapped configuration gives the wrong answer.
  lemma {:induction false} TrapSprings(sock: PathBuf, v: nat, i: nat)
    requires TrapAt(sock, v) && i <= v
    ensures
      var path := sock[8 * v := (if sock[8 * v] == 1 then 2 else 1)];
      !WordMatch(path, sock, i)
    decreases v - i
  {
    var path: PathBuf := sock[8 * v := (if sock[8 * v] == 1 then 2 else 1)];
    if i == v {
      if v == WORDS {
        assert path[8 * v..][0] != sock[8 * v..][0];
        assert StrLen(sock[8 * v..]) > 0;
        assert path[8 * v..][..StrLen(sock[8 * v..])][0] != sock[8 * v..][..StrLen(sock[8 * v..])][0];
      } else {
        var p, s := WordAt(path, v), WordAt(sock, v);
        assert p[0] != s[0] && s[0] != 0;
        assert StrLen(s) > 0;
        assert p[..StrLen(s)][0] != s[..StrLen(s)][0];
      }
    } else {
      assert WordAt(path, i) == WordAt(sock, i);
      assert !IsZero(WordAt(sock, i)) by {
        HasByteIsNotZero(sock, i);
        if i < StrLen(sock) / 8 {
          assert WordAt(sock, i)[0] == sock[8 * i];
        }
      }
      TrapSprings(sock, v, i + 1);
    }
  }

  // For which configurations the word loop is the byte-wise prefix test, on every path.
  lemma WordLoopIsPrefixTest(sock: PathBuf)
    ensures (forall path: PathBuf :: WordMatch(path, sock, 0) == Matches(path, sock))
       <==> forall v :: !TrapAt(sock, v)
  {
    if forall v :: !TrapAt(sock, v) {
      forall path: PathBuf
        ensures WordMatch(path, sock, 0) == Matches(path, sock)
      {
        WordLoop(path, sock, 0);
      }
    } else {
      var v :| TrapAt(sock, v);
      var path: PathBuf := sock[8 * v := (if sock[8 * v] == 1 then 2 else 1)];
      TrapSprings(sock, v, 0);
      assert path[..StrLen(sock)] == sock[..StrLen(sock)];
      assert Matches(path, sock) && !WordMatch(path, sock, 0);
    }
  }

  /* ---- The reused path buffer ---- */

  // The string that bpf_probe_read_kernel_str reads into a path buffer; an address whose first byte
  // is NUL is an abstract one, and its name starts after that byte.
  function NameOf(addr: seq<Octet>): (s: seq<Octet>)
    ensures |s| < UNIX_PATH_MAX
  {
    var name := if addr == [] || addr[0] != 0 then addr else addr[1..];
    var n := StrLen(name);
    if n < UNIX_PATH_MAX then name[..n] else name[..UNIX_PATH_MAX - 1]
  }

  // The configured string is a prefix of the name.
  predicate NameMatches(addr: seq<Octet>, sock: PathBuf) {
    StrLen(sock) <= |NameOf(addr)| && NameOf(addr)[..StrLen(sock)] == sock[..StrLen(sock)]
  }

  // match_path_of_usk: the name overwrites the front of the buffer and its old tail stays behind,
  // yet on a configuration without a trap the answer depends on the name alone.
  method MatchPathOfUsk(path: array<Octet>, addr: seq<Octet>, addrLen: nat, sock: PathBuf) returns (r: bool)
    requires path.Length == UNIX_PATH_MAX
    modifies path
    ensures r == (addrLen != 0 && WordMatch(path[..], sock, 0))
    ensures (forall v :: !TrapAt(sock, v)) ==> r == (addrLen != 0 && NameMatches(addr, sock))
    ensures addrLen != 0 ==> path[..|NameOf(addr)| + 1] == NameOf(addr) + [0]
    ensures addrLen != 0 ==> path[|NameOf(addr)| + 1..] == old(path[|NameOf(addr)| + 1..])
    ensures addrLen == 0 ==> path[..] == old(path[..])
  {
    hide WordMatch, Matches, NameMatches, TrapAt;
    if addrLen == 0 {
      return false;
    }
    var name := NameOf(addr);
    forall i | 0 <= i <= |name| {
      path[i] := if i < |name| then name[i] else 0;
    }
    assert path[..|name| + 1] == name + [0];
    r := IsPathMatched(path[..], sock);
    if forall v :: !TrapAt(sock, v) {
      WordMatchIsMatches(path[..], sock);
      NameDecides(path[..], addr, sock);
    }
  }

  lemma WordMatchIsMatches(path: PathBuf, sock: PathBuf)
    requires forall v :: !TrapAt(sock, v)
    ensures WordMatch(path, sock, 0) == Matches(path, sock)
  {
    WordLoop(path, sock, 0);
  }

  /* ---- What the name means ---- */

  // The name of a socket, as far as the buffer holds it.
  function Held(name: seq<Octet>): seq<Octet> {
    if |name| < UNIX_PATH_MAX then name else name[..UNIX_PATH_MAX - 1]
  }

  // For a path, and for the abstract name behind a NUL, what is matched is the name itself: the
  // configured string is looked for as a prefix of it.
  lemma NameMatchesMeaning(name: seq<Octet>, sock: PathBuf)
    requires name != [] && 0 !in name
    ensures NameMatches(name + [0], sock) <==> sock[..StrLen(sock)] <= Held(name)
    ensures NameMatches([0] + name + [0], sock) <==> sock[..StrLen(sock)] <= Held(name)
  {
    NamePlain(name);
    NameAbstract(name);
    hide NameOf, StrLen, Held;
  }

  lemma NamePlain(name: seq<Octet>)
    requires name != [] && 0 !in name
    ensures NameOf(name + [0]) == Held(name)
  {
    StrLenIs(name + [0], |name|);
    hide StrLen;
    assert (name + [0])[0] != 0 && (name + [0])[..|name|] == name;
    if |name| >= UNIX_PATH_MAX {
      assert (name + [0])[..UNIX_PATH_MAX - 1] == name[..UNIX_PATH_MAX - 1];
    }
  }

  lemma NameAbstract(name: seq<Octet>)
    requires name != [] && 0 !in name
    ensures NameOf([0] + name + [0]) == Held(name)
  {
    NamePlain(name);
    hide StrLen, Held;
    assert ([0] + name + [0])[1..] == name + [0];
    assert (name + [0])[0] == name[0] && name[0] in name;
  }

  // On a configuration without a trap, a socket with that name is captured exactly if the configured
  // string is a prefix of it, whatever the buffer held before.
  method MatchNamed(path: array<Octet>, name: seq<Octet>, isAbstract: bool, sock: PathBuf) returns (r: bool)
    requires path.Length == UNIX_PATH_MAX && name != [] && 0 !in name
    requires forall v :: !TrapAt(sock, v)
    modifies path
    ensures r <==> sock[..StrLen(sock)] <= Held(name)
  {
    hide NameMatches, TrapAt, NameOf;
    NameMatchesMeaning(name, sock);
    var addr := if isAbstract then [0] + name + [0] else name + [0];
    r := MatchPathOfUsk(path, addr, |addr|, sock);
  }

  lemma NameDecides(path: PathBuf, addr: seq<Octet>, sock: PathBuf)
    requires path[..|NameOf(addr)| + 1] == NameOf(addr) + [0]
    ensures Matches(path, sock) == NameMatches(addr, sock)
  {
    var n, s := StrLen(sock), NameOf(addr);
    if n <= |s| {
      assert path[..n] == path[..|s| + 1][..n] == s[..n];
    } else {
      assert path[|s|] == path[..|s| + 1][|s|] == 0;
      assert path[..n][|s|] != sock[..n][|s|];
    }
  }
}
