/** The reloader's fingerprint string: sizes and modification times in decimal, joined by slashes. */
module Fingerprint {

  /** What os.Stat tells the reloader about one file. */
  datatype Stamp = Stamp(size: int, modTime: int)

  const DIGITS := "0123456789"

  /** Decimal notation, as the verb %d prints it. */
  function Digits(n: nat): (s: string)
    ensures s != []
  {
    if n < 10 then [DIGITS[n]] else Digits(n / 10) + [DIGITS[n % 10]]
  }

  function Decimal(i: int): string {
    if i < 0 then "-" + Digits(-i) else Digits(i)
  }

  function Render(cert: Stamp, key: Stamp): string {
    Decimal(cert.size) + ("/" + (Decimal(cert.modTime) + ("/" + (Decimal(key.size) + ("/" + Decimal(key.modTime))))))
  }

  function Value(c: char): nat {
    if '0' <= c <= '9' then c as int - '0' as int else 0
  }

  /** Reads digits back. */
  function Parse(s: string): nat {
    if s == [] then 0 else 10 * Parse(s[..|s| - 1]) + Value(s[|s| - 1])
  }

  lemma {:induction false} ParseDigits(n: nat)
    ensures Parse(Digits(n)) == n
    ensures forall c <- Digits(n) :: '0' <= c <= '9'
  {
    if n >= 10 {
      ParseDigits(n / 10);
      assert Digits(n)[..|Digits(n)| - 1] == Digits(n / 10);
    } else {
      assert Digits(n)[..0] == [];
    }
  }

  lemma DecimalInjective(i: int, j: int)
    requires Decimal(i) == Decimal(j)
    ensures i == j
  {
    ParseDigits(if i < 0 then -i else i);
    ParseDigits(if j < 0 then -j else j);
    assert i < 0 ==> Decimal(i)[0] == '-' && Decimal(i)[1..] == Digits(-i);
    assert j < 0 ==> Decimal(j)[0] == '-' && Decimal(j)[1..] == Digits(-j);
    assert i >= 0 ==> Decimal(i)[0] in Digits(i);
    assert j >= 0 ==> Decimal(j)[0] in Digits(j);
  }

  lemma DecimalNoSlash(i: int)
    ensures '/' !in Decimal(i)
  {
    ParseDigits(if i < 0 then -i else i);
  }

  /** The first separator splits a string in one way only. */
  lemma SplitUnique(a: string, b: string, a': string, b': string)
    requires '/' !in a && '/' !in a'
    requires a + ("/" + b) == a' + ("/" + b')
    ensures a == a' && b == b'
  {
    var s := a + ("/" + b);
    assert s[|a|] == '/' && s[|a'|] == '/';
    assert forall i | 0 <= i < |a| :: s[i] == a[i] && a[i] in a;
    assert forall i | 0 <= i < |a'| :: s[i] == a'[i] && a'[i] in a';
    assert s[..|a|] == a && s[..|a'|] == a';
    assert s[|a| + 1..] == b && s[|a'| + 1..] == b';
  }

  /** Equal fingerprints mean equal stamps of both files. */
  lemma RenderInjective(cert: Stamp, key: Stamp, cert': Stamp, key': Stamp)
    requires Render(cert, key) == Render(cert', key')
    ensures cert == cert' && key == key'
  {
    DecimalNoSlash(cert.size); DecimalNoSlash(cert'.size);
    DecimalNoSlash(cert.modTime); DecimalNoSlash(cert'.modTime);
    DecimalNoSlash(key.size); DecimalNoSlash(key'.size);
    var c3, c3' := Decimal(key.modTime), Decimal(key'.modTime);
    var c2, c2' := Decimal(key.size) + ("/" + c3), Decimal(key'.size) + ("/" + c3');
    var c1, c1' := Decimal(cert.modTime) + ("/" + c2), Decimal(cert'.modTime) + ("/" + c2');
    SplitUnique(Decimal(cert.size), c1, Decimal(cert'.size), c1');
    SplitUnique(Decimal(cert.modTime), c2, Decimal(cert'.modTime), c2');
    SplitUnique(Decimal(key.size), c3, Decimal(key'.size), c3');
    DecimalInjective(cert.size, cert'.size);
    DecimalInjective(cert.modTime, cert'.modTime);
    DecimalInjective(key.size, key'.size);
    DecimalInjective(key.modTime, key'.modTime);
  }
}
