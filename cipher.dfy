/**
 * The Caesar cipher of src/puzzle/spin_puzzle_cipher.h and .cpp: every
 * character except '\n' is replaced by the alphabet entry CAESAR_KEY slots
 * away, over a table of SIZE_CAESAR_ALPHABET = 96 slots whose last slot is
 * the string literal's terminating NUL.
 */
module PuzzleCipher {

  /** Cipher::VERSION. */
  datatype Version = NoCipher | V0 | InvalidVersion {
    function Code(): (c: nat)
      ensures c <= 2
    {
      match this
      case NoCipher => 0
      case V0 => 1
      case InvalidVersion => 2
    }
  }

  /** SIZE_CAESAR_ALPHABET. */
  const AlphabetSize: nat := 96
  /** CAESAR_KEY = SIZE_CAESAR_ALPHABET / 2. */
  const CaesarKey: nat := AlphabetSize / 2

  /** CAESAR_ALPHABET[i]: ' ' + i for the 95 printable characters, then the literal's NUL. */
  function Alphabet(i: nat): (c: char)
    requires i < AlphabetSize
    ensures i < AlphabetSize - 1 ==> c as int == ' ' as int + i
    ensures i == AlphabetSize - 1 ==> c == 0 as char
  {
    if i < AlphabetSize - 1 then (' ' as int + i) as char else 0 as char
  }

  /** The 7-bit characters, for which the table index below is never negative. */
  predicate IsAscii(c: char) {
    c as int < 128
  }

  predicate AllAscii(s: string) {
    forall i :: 0 <= i < |s| ==> IsAscii(s[i])
  }

  /** A printable character, ' ' to '~'. */
  predicate IsPrintable(c: char) {
    ' ' <= c <= '~'
  }

  /** position = c - CAESAR_ALPHABET[0]. */
  function Position(c: char): int {
    c as int - ' ' as int
  }

  /**
   * One character of caesar_encrypt.  The dividend is at least 16 for a
   * 7-bit character, so C's truncating % and Dafny's agree.
   */
  function EncryptChar(c: char): (r: char)
    requires IsAscii(c)
    ensures IsAscii(r)
    ensures c == '\n' <==> r == '\n'
  {
    if c == '\n' then '\n' else Alphabet((Position(c) - CaesarKey + AlphabetSize) % AlphabetSize)
  }

  /** One character of caesar_decrypt. */
  function DecryptChar(c: char): (r: char)
    requires IsAscii(c)
    ensures IsAscii(r)
    ensures c == '\n' <==> r == '\n'
  {
    if c == '\n' then '\n' else Alphabet((Position(c) + CaesarKey + AlphabetSize) % AlphabetSize)
  }

  /** caesar_encrypt: one output character per input character. */
  function Encrypted(s: string): (r: string)
    requires AllAscii(s)
    ensures |r| == |s| && AllAscii(r)
  {
    seq(|s|, i requires 0 <= i < |s| => EncryptChar(s[i]))
  }

  /** caesar_decrypt. */
  function Decrypted(s: string): (r: string)
    requires AllAscii(s)
    ensures |r| == |s| && AllAscii(r)
  {
    seq(|s|, i requires 0 <= i < |s| => DecryptChar(s[i]))
  }

  /**
   * As the key is half the table, shifting back by it and forward by it land
   * on the same slot: caesar_encrypt and caesar_decrypt are the same map, and
   * on a printable character both give the alphabet entry 48 slots on.
   */
  lemma EncryptIsDecrypt(c: char)
    requires IsAscii(c)
    ensures EncryptChar(c) == DecryptChar(c)
    ensures IsPrintable(c) ==> EncryptChar(c) == Alphabet((Position(c) + CaesarKey) % AlphabetSize)
  {
  }

  /** Every printable character but 'O' is restored by decrypt after encrypt, and so is '\n'. */
  lemma CharRoundTrip(c: char)
    requires (IsPrintable(c) && c != 'O') || c == '\n'
    ensures DecryptChar(EncryptChar(c)) == c
    ensures EncryptChar(DecryptChar(c)) == c
  {
    if c != '\n' {
      var p := Position(c);
      TableShiftsCancel(p);
      assert Position(EncryptChar(c)) == (p - CaesarKey + AlphabetSize) % AlphabetSize;
      assert Position(DecryptChar(c)) == (p + CaesarKey + AlphabetSize) % AlphabetSize;
    }
  }

  /**
   * On the 96-slot table, a shift by the key in either direction, from any
   * position but 'O''s 47, avoids the NUL slot and is undone by the other.
   */
  lemma TableShiftsCancel(p: int)
    requires 0 <= p < AlphabetSize - 1 && p != 47
    ensures (p - CaesarKey + AlphabetSize) % AlphabetSize == (p + CaesarKey) % AlphabetSize
    ensures (p + CaesarKey) % AlphabetSize != AlphabetSize - 1
    ensures ((p + CaesarKey) % AlphabetSize + CaesarKey + AlphabetSize) % AlphabetSize == p
    ensures ((p + CaesarKey) % AlphabetSize - CaesarKey + AlphabetSize) % AlphabetSize == p
    ensures (p + CaesarKey + AlphabetSize) % AlphabetSize == (p + CaesarKey) % AlphabetSize
  {
    if p < CaesarKey {
      assert (p + CaesarKey) % AlphabetSize == p + CaesarKey;
      assert (p - CaesarKey + AlphabetSize) % AlphabetSize == p + CaesarKey;
      assert (p + CaesarKey + AlphabetSize) % AlphabetSize == p + CaesarKey;
    } else {
      assert (p + CaesarKey) % AlphabetSize == p - CaesarKey;
      assert (p - CaesarKey + AlphabetSize) % AlphabetSize == p - CaesarKey;
      assert (p + CaesarKey + AlphabetSize) % AlphabetSize == p - CaesarKey;
    }
  }

  /**
   * 'O' (position 47) is sent to slot 95, the NUL that ends the table, and
   * NUL (position -32) decrypts to slot 16, the digit '0'.
   */
  lemma LetterOLost()
    ensures EncryptChar('O') == 0 as char
    ensures DecryptChar(EncryptChar('O')) == '0'
  {
  }

  /** The strings the cipher restores: printable characters other than 'O', and line breaks. */
  predicate Restorable(s: string) {
    forall i :: 0 <= i < |s| ==> (IsPrintable(s[i]) && s[i] != 'O') || s[i] == '\n'
  }

  /** decrypt(encrypt(s)) == s for every restorable string, and a string holding 'O' is not restored. */
  lemma StringRoundTrip(s: string)
    requires AllAscii(s)
    ensures Restorable(s) ==> Decrypted(Encrypted(s)) == s
    ensures (exists i :: 0 <= i < |s| && s[i] == 'O') ==> Decrypted(Encrypted(s)) != s
  {
    if Restorable(s) {
      forall i | 0 <= i < |s|
        ensures Decrypted(Encrypted(s))[i] == s[i]
      {
        CharRoundTrip(s[i]);
      }
    }
    if i :| 0 <= i < |s| && s[i] == 'O' {
      LetterOLost();
      assert Decrypted(Encrypted(s))[i] == '0';
    }
  }

  /**
   * The cipher as evidently intended: a shift by the same key over the 95
   * printable characters only, which is a bijection on them.
   */
  const PrintableCount: nat := AlphabetSize - 1

  function CorrectedEncryptChar(c: char): (r: char)
    requires IsPrintable(c) || c == '\n'
    ensures IsPrintable(r) || r == '\n'
  {
    if c == '\n' then '\n' else (' ' as int + (Position(c) - CaesarKey + PrintableCount) % PrintableCount) as char
  }

  function CorrectedDecryptChar(c: char): (r: char)
    requires IsPrintable(c) || c == '\n'
    ensures IsPrintable(r) || r == '\n'
  {
    if c == '\n' then '\n' else (' ' as int + (Position(c) + CaesarKey) % PrintableCount) as char
  }

  /** With the corrected table every printable character, 'O' included, round-trips both ways. */
  lemma CorrectedRoundTrip(c: char)
    requires IsPrintable(c) || c == '\n'
    ensures CorrectedDecryptChar(CorrectedEncryptChar(c)) == c
    ensures CorrectedEncryptChar(CorrectedDecryptChar(c)) == c
  {
    if c != '\n' {
      EncryptThenDecrypt(c);
      DecryptThenEncrypt(c);
    }
  }

  /** Shifting a position of the 95-slot table forward and back by the key, in either order, returns it. */
  lemma ShiftsCancel(p: int)
    requires 0 <= p < PrintableCount
    ensures ((p - CaesarKey + PrintableCount) % PrintableCount + CaesarKey) % PrintableCount == p
    ensures ((p + CaesarKey) % PrintableCount - CaesarKey + PrintableCount) % PrintableCount == p
  {
    if p >= CaesarKey {
      assert (p - CaesarKey + PrintableCount) % PrintableCount == p - CaesarKey;
    } else {
      assert (p - CaesarKey + PrintableCount) % PrintableCount == p - CaesarKey + PrintableCount;
    }
    if p + CaesarKey < PrintableCount {
      assert (p + CaesarKey) % PrintableCount == p + CaesarKey;
    } else {
      assert (p + CaesarKey) % PrintableCount == p + CaesarKey - PrintableCount;
    }
  }

  /** The corrected decryption undoes the corrected encryption of a printable character. */
  lemma EncryptThenDecrypt(c: char)
    requires IsPrintable(c)
    ensures CorrectedDecryptChar(CorrectedEncryptChar(c)) == c
  {
    var p := Position(c);
    var q := (p - CaesarKey + PrintableCount) % PrintableCount;
    assert Position(CorrectedEncryptChar(c)) == q;
    ShiftsCancel(p);
  }

  /** The corrected encryption undoes the corrected decryption of a printable character. */
  lemma DecryptThenEncrypt(c: char)
    requires IsPrintable(c)
    ensures CorrectedEncryptChar(CorrectedDecryptChar(c)) == c
  {
    var p := Position(c);
    var d := (p + CaesarKey) % PrintableCount;
    assert Position(CorrectedDecryptChar(c)) == d;
    ShiftsCancel(p);
  }

  /** A Cipher object: the version is fixed when it is built (there is no default constructor). */
  class Cipher {
    const version: Version

    constructor(version: Version)
      ensures this.version == version
    {
      this.version := version;
    }

    /** encrypt: the Caesar map under v0, the input itself under any other version. */
    method Encrypt(input: string) returns (output: string)
      requires AllAscii(input)
      ensures output == if version == V0 then Encrypted(input) else input
    {
      if version == V0 {
        output := CaesarEncrypt(input);
      } else {
        output := input;
      }
    }

    /** decrypt. */
    method Decrypt(input: string) returns (output: string)
      requires AllAscii(input)
      ensures output == if version == V0 then Decrypted(input) else input
    {
      if version == V0 {
        output := CaesarDecrypt(input);
      } else {
        output := input;
      }
    }
  }

  /** caesar_encrypt: the output is built one character at a time. */
  method CaesarEncrypt(input: string) returns (output: string)
    requires AllAscii(input)
    ensures |output| == |input|
    ensures forall i :: 0 <= i < |input| ==> output[i] == EncryptChar(input[i])
  {
    output := [];
    var n := 0;
    while n < |input|
      invariant n <= |input| && |output| == n
      invariant forall i :: 0 <= i < n ==> output[i] == EncryptChar(input[i])
    {
      var c := input[n];
      if c == '\n' {
        output := output + ['\n'];
      } else {
        var position := Position(c);
        output := output + [Alphabet((position - CaesarKey + AlphabetSize) % AlphabetSize)];
      }
      n := n + 1;
    }
  }

  /** caesar_decrypt. */
  method CaesarDecrypt(input: string) returns (output: string)
    requires AllAscii(input)
    ensures |output| == |input|
    ensures forall i :: 0 <= i < |input| ==> output[i] == DecryptChar(input[i])
  {
    output := [];
    var n := 0;
    while n < |input|
      invariant n <= |input| && |output| == n
      invariant forall i :: 0 <= i < n ==> output[i] == DecryptChar(input[i])
    {
      var c := input[n];
      if c == '\n' {
        output := output + ['\n'];
      } else {
        var position := Position(c);
        output := output + [Alphabet((position + CaesarKey + AlphabetSize) % AlphabetSize)];
      }
      n := n + 1;
    }
  }

  /** A v0 cipher object restores what it encrypted when no 'O' is in it; any other version passes text through. */
  lemma CipherRoundTrip(version: Version, s: string)
    requires AllAscii(s) && (version != V0 || Restorable(s))
    ensures var e := if version == V0 then Encrypted(s) else s;
      (if version == V0 then Decrypted(e) else e) == s
  {
    StringRoundTrip(s);
  }
}
