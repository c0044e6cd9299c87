/** Identifiers as text, and the key under which the idempotency store keeps a claim. */
module Identity {
  import opened Wallets

  const HEX_DIGITS: string := "0123456789abcdef"

  /** The lowest `width` hexadecimal digits of `n`, most significant first. */
  function Hex(n: nat, width: nat): (s: string)
    ensures |s| == width
    ensures forall i :: 0 <= i < |s| ==> s[i] in HEX_DIGITS
  {
    if width == 0 then "" else Hex(n / 16, width - 1) + [HEX_DIGITS[n % 16]]
  }

  /** `str(uuid)`: 8-4-4-4-12 lower-case digits. */
  function UuidText(id: Id): (s: string)
    ensures |s| == 36
  {
    var h := Hex(id, 32);
    h[..8] + "-" + h[8..12] + "-" + h[12..16] + "-" + h[16..20] + "-" + h[20..]
  }

  /** `_scoped_key`: the client's string behind its owner's id. */
  function ScopedKey(owner: Id, key: string): string {
    UuidText(owner) + ":" + key
  }

  lemma HexDigitsDiffer(a: nat, b: nat)
    requires a < 16 && b < 16 && HEX_DIGITS[a] == HEX_DIGITS[b]
    ensures a == b
  {
  }

  ghost function Pow16(n: nat): int {
    if n == 0 then 1 else 16 * Pow16(n - 1)
  }

  lemma {:induction false} HexInjective(a: nat, b: nat, width: nat)
    requires a < Pow16(width) && b < Pow16(width) && Hex(a, width) == Hex(b, width)
    ensures a == b
  {
    if width > 0 {
      var s, t := Hex(a / 16, width - 1), Hex(b / 16, width - 1);
      assert Hex(a, width)[..width - 1] == s && Hex(b, width)[..width - 1] == t;
      assert Hex(a, width)[width - 1] == HEX_DIGITS[a % 16] && Hex(b, width)[width - 1] == HEX_DIGITS[b % 16];
      HexDigitsDiffer(a % 16, b % 16);
      HexInjective(a / 16, b / 16, width - 1);
    }
  }

  function Undashed(s: string): string
    requires |s| == 36
  {
    s[..8] + s[9..13] + s[14..18] + s[19..23] + s[24..]
  }

  lemma UuidTextHoldsHex(id: Id)
    ensures Undashed(UuidText(id)) == Hex(id, 32)
  {
    var s, h := UuidText(id), Hex(id, 32);
    assert s[..8] == h[..8];
    assert s[9..13] == h[8..12];
    assert s[14..18] == h[12..16];
    assert s[19..23] == h[16..20];
    assert s[24..] == h[20..];
    assert h == h[..8] + h[8..12] + h[12..16] + h[16..20] + h[20..];
  }

  lemma UuidTextInjective(a: Id, b: Id)
    requires UuidText(a) == UuidText(b)
    ensures a == b
  {
    UuidTextHoldsHex(a);
    UuidTextHoldsHex(b);
    assert Pow16(8) == 0x1_0000_0000;
    assert Pow16(16) == 0x1_0000_0000_0000_0000 by { Pow16Adds(8, 8); }
    assert Pow16(32) == 0x1_0000_0000_0000_0000_0000_0000_0000_0000 by { Pow16Adds(16, 16); }
    HexInjective(a, b, 32);
  }

  lemma {:induction false} Pow16Adds(m: nat, n: nat)
    ensures Pow16(m + n) == Pow16(m) * Pow16(n)
  {
    if m > 0 {
      Pow16Adds(m - 1, n);
      assert 16 * (Pow16(m - 1) * Pow16(n)) == (16 * Pow16(m - 1)) * Pow16(n);
    }
  }

  /** No string a client can choose reaches another owner's keys, or another key of its own. */
  lemma ScopedKeyInjective(o1: Id, k1: string, o2: Id, k2: string)
    requires ScopedKey(o1, k1) == ScopedKey(o2, k2)
    ensures o1 == o2 && k1 == k2
  {
    var s, t := ScopedKey(o1, k1), ScopedKey(o2, k2);
    assert s[..36] == UuidText(o1) && t[..36] == UuidText(o2);
    UuidTextInjective(o1, o2);
    assert s[37..] == k1 && t[37..] == k2;
  }
}
