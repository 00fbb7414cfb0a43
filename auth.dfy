/**
 * Password storage format of app/auth.py: `hash_password` stores
 * `salt + "$" + sha256(password + salt)` and `verify_password` splits the
 * stored value on "$", recomputes the digest and compares.
 *
 * SHA-256 (applied to the UTF-8 encoding, rendered by `hexdigest`) is not
 * modelled: it is the parameter `sha256`. The random salt source
 * (`secrets.token_hex(16)`) is the parameter `saltBytes`, the 16 bytes it
 * draws; their hex rendering is modelled.
 */
module Auth {
  import opened Wrappers

  /** One byte of random material. */
  type Byte = b: int | 0 <= b < 256

  /** SHA-256 of a string's encoding, as a hex digest. */
  type Hasher = string -> string

  predicate IsHexChar(c: char) {
    '0' <= c <= '9' || 'a' <= c <= 'f'
  }

  predicate IsHex(s: string) {
    forall i :: 0 <= i < |s| ==> IsHexChar(s[i])
  }

  /** What `hexdigest()` guarantees of every digest: only hex digits. */
  ghost predicate DigestsAreHex(sha256: Hasher) {
    forall s :: IsHex(sha256(s))
  }

  /** The separator between salt and digest in a stored password. */
  const Separator: char := '$'

  /** The lower-case hex digit for a value below 16. */
  function HexDigit(n: int): (c: char)
    requires 0 <= n < 16
    ensures IsHexChar(c)
  {
    if n < 10 then ('0' as int + n) as char else ('a' as int + n - 10) as char
  }

  /** `secrets.token_hex`: two lower-case hex digits per byte, high nibble first. */
  function TokenHex(bytes: seq<Byte>): (s: string)
    ensures |s| == 2 * |bytes|
    ensures IsHex(s)
  {
    if bytes == [] then ""
    else [HexDigit(bytes[0] / 16), HexDigit(bytes[0] % 16)] + TokenHex(bytes[1..])
  }

  lemma HexHasNoSeparator(s: string)
    requires IsHex(s)
    ensures Separator !in s
  {
  }

  /** Number of occurrences of `c` in `s`. */
  function Count(s: string, c: char): nat {
    if s == [] then 0 else (if s[0] == c then 1 else 0) + Count(s[1..], c)
  }

  /** Python's `s.split(sep)` for a one-character separator: the pieces between separators, empty ones included. */
  function Split(s: string, sep: char): (parts: seq<string>)
    ensures |parts| >= 1
  {
    if s == [] then [""]
    else
      var rest := Split(s[1..], sep);
      if s[0] == sep then [""] + rest
      else [[s[0]] + rest[0]] + rest[1..]
  }

  /** Python's `sep.join(parts)`. */
  function Join(parts: seq<string>, sep: char): string
    requires |parts| >= 1
  {
    if |parts| == 1 then parts[0] else parts[0] + [sep] + Join(parts[1..], sep)
  }

  /** Splitting yields one more piece than there are separators. */
  lemma {:induction false} SplitCount(s: string, sep: char)
    ensures |Split(s, sep)| == Count(s, sep) + 1
  {
    if s != [] {
      SplitCount(s[1..], sep);
    }
  }

  /** No piece of a split contains the separator. */
  lemma {:induction false} SplitPiecesFree(s: string, sep: char)
    ensures forall i :: 0 <= i < |Split(s, sep)| ==> sep !in Split(s, sep)[i]
  {
    if s != [] {
      SplitPiecesFree(s[1..], sep);
      var rest := Split(s[1..], sep);
      if s[0] != sep {
        assert sep !in rest[0];
        assert sep !in [s[0]] + rest[0];
      }
    }
  }

  /** Growing the first piece by one character grows the joined string by that character. */
  lemma JoinGrowFirst(rest: seq<string>, c: char, sep: char)
    requires |rest| >= 1
    ensures Join([[c] + rest[0]] + rest[1..], sep) == [c] + Join(rest, sep)
  {
    var parts := [[c] + rest[0]] + rest[1..];
    assert parts[0] == [c] + rest[0];
    assert parts[1..] == rest[1..];
  }

  /** Joining the pieces of a split with the same separator gives the string back. */
  lemma {:induction false} JoinSplit(s: string, sep: char)
    ensures Join(Split(s, sep), sep) == s
  {
    if s != [] {
      JoinSplit(s[1..], sep);
      var rest := Split(s[1..], sep);
      if s[0] == sep {
        assert ([""] + rest)[1..] == rest;
      } else {
        JoinGrowFirst(rest, s[0], sep);
      }
      assert s == [s[0]] + s[1..];
    }
  }

  /** A string with no separator splits into itself alone. */
  lemma {:induction false} SplitWithoutSeparator(s: string, sep: char)
    requires sep !in s
    ensures Split(s, sep) == [s]
  {
    if s != [] {
      SplitWithoutSeparator(s[1..], sep);
      assert s == [s[0]] + s[1..];
    }
  }

  /** Two separator-free pieces joined by one separator split back into exactly those two pieces. */
  lemma {:induction false} SplitAroundSeparator(a: string, b: string, sep: char)
    requires sep !in a && sep !in b
    ensures Split(a + [sep] + b, sep) == [a, b]
  {
    var s := a + [sep] + b;
    if a == [] {
      assert s[1..] == b;
      SplitWithoutSeparator(b, sep);
    } else {
      assert s[1..] == a[1..] + [sep] + b;
      SplitAroundSeparator(a[1..], b, sep);
      assert a == [a[0]] + a[1..];
    }
  }

  /**
   * `hash_password`: the salt is the hex rendering of 16 random bytes; the
   * stored value is the salt, "$", then the digest of password followed by salt.
   */
  function HashPassword(password: string, saltBytes: seq<Byte>, sha256: Hasher): (stored: string)
    requires |saltBytes| == 16
    ensures |stored| >= 33 && stored[32] == Separator
    ensures stored[..32] == TokenHex(saltBytes) && IsHex(stored[..32])
    ensures stored[33..] == sha256(password + stored[..32])
  {
    var salt := TokenHex(saltBytes);
    salt + [Separator] + sha256(password + salt)
  }

  /**
   * `verify_password`: `None` stands for a stored value that is not a
   * string (the AttributeError path); a value that does not split into
   * exactly two pieces is the ValueError path. Both give false.
   */
  function VerifyPassword(plain: string, stored: Option<string>, sha256: Hasher): (ok: bool)
    ensures ok ==> stored.Some? && Count(stored.value, Separator) == 1
  {
    match stored
    case None => false
    case Some(s) =>
      SplitCount(s, Separator);
      var parts := Split(s, Separator);
      if |parts| != 2 then false
      else sha256(plain + parts[0]) == parts[1]
  }

  /** A stored value without exactly one "$" (or not a string at all) never verifies. */
  lemma VerifyRejectsMalformed(plain: string, stored: Option<string>, sha256: Hasher)
    requires stored.None? || Count(stored.value, Separator) != 1
    ensures !VerifyPassword(plain, stored, sha256)
  {
    if stored.Some? {
      SplitCount(stored.value, Separator);
    }
  }

  /** A well-formed stored value verifies exactly when the recomputed digest equals the stored one. */
  lemma VerifyWellFormed(plain: string, salt: string, digest: string, sha256: Hasher)
    requires Separator !in salt && Separator !in digest
    ensures VerifyPassword(plain, Some(salt + [Separator] + digest), sha256) <==> sha256(plain + salt) == digest
  {
    SplitAroundSeparator(salt, digest, Separator);
  }

  /** Every stored value with exactly one "$" is `salt + "$" + digest` for its two pieces. */
  lemma WellFormedDecomposes(stored: string)
    requires Count(stored, Separator) == 1
    ensures var parts := Split(stored, Separator);
            |parts| == 2 && stored == parts[0] + [Separator] + parts[1]
            && Separator !in parts[0] && Separator !in parts[1]
  {
    SplitCount(stored, Separator);
    JoinSplit(stored, Separator);
    SplitPiecesFree(stored, Separator);
    var parts := Split(stored, Separator);
    assert parts[1..] == [parts[1]];
  }

  /** Round trip: a password verifies against the value `hash_password` stored for it. */
  lemma HashVerifyRoundTrip(password: string, saltBytes: seq<Byte>, sha256: Hasher)
    requires |saltBytes| == 16
    requires DigestsAreHex(sha256)
    ensures VerifyPassword(password, Some(HashPassword(password, saltBytes, sha256)), sha256)
  {
    var salt := TokenHex(saltBytes);
    var digest := sha256(password + salt);
    HexHasNoSeparator(salt);
    HexHasNoSeparator(digest);
    VerifyWellFormed(password, salt, digest, sha256);
  }
}
