/** Password generation: one random byte per character, reduced modulo the
    size of a fixed 74-character alphabet.  The random bytes are an input. */
module Security {
  import opened Common

  /** The alphabet passwords are drawn from: the 74-character literal of
      src/security.ts, written as its four runs. */
  const Charset: string := Upper + Lower + Digits + Symbols

  const Upper: string := "ABCDEFGHIJKLMNOPQRSTUVWXYZ"
  const Lower: string := "abcdefghijklmnopqrstuvwxyz"
  const Digits: string := "0123456789"
  const Symbols: string := "!@#$%^&*()_+"

  /** `s` holds consecutive character codes starting at `first`. */
  ghost predicate Consecutive(s: string, first: char)
  {
    forall i :: 0 <= i < |s| ==> s[i] as int == first as int + i
  }

  /** The runs are A-Z, a-z and 0-9. */
  lemma Runs()
    ensures |Upper| == 26 && Consecutive(Upper, 'A')
    ensures |Lower| == 26 && Consecutive(Lower, 'a')
    ensures |Digits| == 10 && Consecutive(Digits, '0')
  {
    UpperRun();
    LowerRun();
    DigitsRun();
  }

  lemma UpperRun()
    ensures |Upper| == 26 && Consecutive(Upper, 'A')
  {
    forall i | 0 <= i < |Upper| ensures Upper[i] as int == 'A' as int + i {
      assert Upper[i] in Upper;
    }
  }

  lemma LowerRun()
    ensures |Lower| == 26 && Consecutive(Lower, 'a')
  {
    forall i | 0 <= i < |Lower| ensures Lower[i] as int == 'a' as int + i {
      assert Lower[i] in Lower;
    }
  }

  lemma DigitsRun()
    ensures |Digits| == 10 && Consecutive(Digits, '0')
  {
    forall i | 0 <= i < |Digits| ensures Digits[i] as int == '0' as int + i {
      assert Digits[i] in Digits;
    }
  }

  /** The twelve symbols are ASCII, differ from each other and fall outside
      the three runs. */
  lemma SymbolsApart()
    ensures |Symbols| == 12
    ensures forall i :: 0 <= i < |Symbols| ==> Symbols[i] as int < 128
    ensures forall i :: 0 <= i < |Symbols| ==> !('A' <= Symbols[i] <= 'Z' || 'a' <= Symbols[i] <= 'z' || '0' <= Symbols[i] <= '9')
    ensures forall i, j :: 0 <= i < j < |Symbols| ==> Symbols[i] != Symbols[j]
  {
    forall i | 0 <= i < |Symbols|
      ensures Symbols[i] as int < 128 && !('A' <= Symbols[i] <= 'Z' || 'a' <= Symbols[i] <= 'z' || '0' <= Symbols[i] <= '9')
    {
      assert Symbols[i] in Symbols;
    }
  }

  /** The alphabet has 74 characters, none twice, all of them ASCII (so a
      password always survives `btoa`). */
  lemma CharsetContents()
    ensures |Charset| == 74
    ensures forall i :: 0 <= i < |Charset| ==> Charset[i] as int < 128
    ensures forall i, j :: 0 <= i < j < |Charset| ==> Charset[i] != Charset[j]
  {
    Runs();
    SymbolsApart();
  }

  /** Reducing a byte modulo 74 is not uniform: the first 34 characters
      (`256 % 74`) each come from four byte values, the other 40 from three. */
  lemma Preimages(k: nat, b: byte)
    requires k < |Charset|
    ensures b % |Charset| == k <==> b == k || b == k + 74 || b == k + 148 || (k < 34 && b == k + 222)
  {
    CharsetContents();
  }

  /** The password made of the bytes `random` when `length` characters are
      asked for: character `i` is the alphabet's character at
      `random[i] % 74`. */
  function PasswordOf(length: int, random: seq<byte>): string
    requires length <= |random|
  {
    seq(if length < 0 then 0 else length, i requires 0 <= i < |random| => Charset[random[i] % |Charset|])
  }

  /** `generatePassword(length)` where the i-th byte it draws is `random[i]`.
      A loop over `i < length` runs `max(length, 0)` times, so there must be
      that many bytes. */
  method GeneratePassword(length: int, random: seq<byte>) returns (password: string)
    requires length <= |random|
    ensures password == PasswordOf(length, random)
    ensures |password| == if length < 0 then 0 else length
    ensures forall i :: 0 <= i < |password| ==> password[i] == Charset[random[i] % |Charset|]
  {
    password := "";
    var i := 0;
    while i < length
      invariant 0 <= i && (i <= length || i == 0)
      invariant |password| == i
      invariant forall j :: 0 <= j < i ==> password[j] == Charset[random[j] % |Charset|]
    {
      password := password + [Charset[random[i] % |Charset|]];
      i := i + 1;
    }
  }

  /** A password has the length asked for (none for a length below one),
      only characters of the alphabet, all of them ASCII, and depends on
      exactly one byte per character: the bytes after the first `length`
      are never looked at. */
  lemma PasswordOfSpec(length: int, random: seq<byte>, more: seq<byte>)
    requires length <= |random|
    ensures |PasswordOf(length, random)| == if length < 0 then 0 else length
    ensures forall i :: 0 <= i < |PasswordOf(length, random)| ==>
      PasswordOf(length, random)[i] in Charset && PasswordOf(length, random)[i] as int < 128
    ensures length >= 0 ==> PasswordOf(length, random) == PasswordOf(length, random[..length] + more)
  {
    CharsetContents();
    var p := PasswordOf(length, random);
    forall i | 0 <= i < |p| ensures p[i] in Charset && p[i] as int < 128 {
      var k := random[i] % |Charset|;
      assert p[i] == Charset[k];
    }
  }
}
