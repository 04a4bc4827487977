/** Fresh names for declarations. */
module Names {

  type Decl = nat

  function Digit(d: nat): char
    requires d < 10
  {
    '0' + d as char
  }

  predicate IsDigit(c: char) {
    '0' <= c <= '9'
  }

  function Decimal(n: nat): (s: string)
    ensures s != [] && forall c :: c in s ==> IsDigit(c)
  {
    if n < 10 then [Digit(n)] else Decimal(n / 10) + [Digit(n % 10)]
  }

  /** The number that a string of digits stands for. */
  function Number(s: string): int {
    if s == [] then 0 else Number(s[..|s| - 1]) * 10 + (s[|s| - 1] as int - '0' as int)
  }

  /** `s` is `n` as it is written in decimal. */
  predicate IsNumeral(s: string, n: nat) {
    s != [] && (forall c :: c in s ==> IsDigit(c)) && Number(s) == n && (s[0] == '0' ==> |s| == 1)
  }

  lemma {:induction false} DecimalIsNumeral(n: nat)
    ensures IsNumeral(Decimal(n), n) && (n > 0 ==> Decimal(n)[0] != '0')
    decreases n
  {
    if n >= 10 {
      DecimalIsNumeral(n / 10);
      assert Decimal(n)[..|Decimal(n)| - 1] == Decimal(n / 10);
    } else {
      assert Decimal(n)[..0] == [];
    }
  }

  /** `name` is the old name, the prefix and the counter, in this order. */
  ghost predicate NamedAfter(name: string, oldName: string, prefix: string, cnt: nat) {
    exists digits :: IsNumeral(digits, cnt) && name == oldName + prefix + digits
  }

  lemma {:induction false} DecimalInjective(m: nat, n: nat)
    requires Decimal(m) == Decimal(n)
    ensures m == n
    decreases m
  {
    var a, b := Decimal(m), Decimal(n);
    assert a[|a| - 1] == Digit(m % 10) && b[|b| - 1] == Digit(n % 10);
    if m >= 10 {
      assert a[..|a| - 1] == Decimal(m / 10);
    }
    if n >= 10 {
      assert b[..|b| - 1] == Decimal(n / 10);
    }
    if m >= 10 && n >= 10 {
      DecimalInjective(m / 10, n / 10);
    }
  }

  /** What a new name is made of, apart from the counter. */
  datatype Mint = Mint(oldName: string, prefix: string)
  {
    function Name(cnt: nat): (s: string)
      ensures s != ""
    {
      oldName + prefix + Decimal(cnt)
    }

    predicate PrefixOk() {
      prefix != [] && !IsDigit(prefix[|prefix| - 1])
    }
  }

  /** A digit string after a non-digit can be read back from the end. */
  lemma {:induction false} DigitsEnd(a: string, x: string, b: string, y: string)
    requires a + x == b + y && a != [] && b != []
    requires !IsDigit(a[|a| - 1]) && !IsDigit(b[|b| - 1])
    requires (forall c :: c in x ==> IsDigit(c)) && (forall c :: c in y ==> IsDigit(c))
    ensures x == y
  {
    NotShorter(a, x, b, y);
    NotShorter(b, y, a, x);
    assert x == (a + x)[|a|..] && y == (b + y)[|b|..];
  }

  lemma NotShorter(a: string, x: string, b: string, y: string)
    requires a + x == b + y && b != [] && !IsDigit(b[|b| - 1]) && (forall c :: c in x ==> IsDigit(c))
    ensures |a| >= |b|
  {
    assert forall k :: |a| <= k < |a + x| ==> (a + x)[k] == x[k - |a|] && IsDigit((a + x)[k]);
    assert (b + y)[|b| - 1] == b[|b| - 1];
  }

  /** No two names that one map ever mints are the same, whatever the old names are and
      however the prefix changes, if no prefix ends in a digit. */
  lemma {:induction false} MintedDiffer(minted: seq<Mint>, i: nat, j: nat)
    requires i < j < |minted| && minted[i].PrefixOk() && minted[j].PrefixOk()
    ensures minted[i].Name(i) != minted[j].Name(j)
  {
    if minted[i].Name(i) == minted[j].Name(j) {
      var a, b := minted[i].oldName + minted[i].prefix, minted[j].oldName + minted[j].prefix;
      DigitsEnd(a, Decimal(i), b, Decimal(j));
      DecimalInjective(i, j);
    }
  }

  /** With other prefixes two names can be the same. */
  lemma MintedCanAgree()
    ensures Mint("a", "1").Name(0) == Mint("a", "").Name(10)
  {
    assert Decimal(0) == "0" && Decimal(1) == "1";
    assert Decimal(10) == "10";
  }

  predicate NoneEmpty(names: map<Decl, string>) {
    forall d :: d in names ==> names[d] != ""
  }

  class NewnameMap {
    var cnt: nat
    var prefix: string
    var names: map<Decl, string>
    ghost var minted: seq<Mint>

    ghost predicate Valid()
      reads this
    {
      |minted| == cnt && NoneEmpty(names)
    }

    constructor (prefix: string)
      ensures Valid() && this.prefix == prefix && names == map[] && minted == []
    {
      this.prefix, cnt, names, minted := prefix, 0, map[], [];
    }

    method FindEntryNewn(d: Decl) returns (name: string)
      ensures name == if d in names then names[d] else ""
    {
      if d !in names {
        return "";
      }
      return names[d];
    }

    method AddEntry(d: Decl, oldName: string) returns (name: string)
      requires Valid()
      modifies this
      ensures Valid() && prefix == old(prefix)
      ensures d in old(names) ==> name == old(names)[d] && names == old(names) && minted == old(minted)
      ensures d !in old(names) ==>
        && minted == old(minted) + [Mint(oldName, prefix)]
        && name == minted[old(cnt)].Name(old(cnt)) && names == old(names)[d := name]
        && NamedAfter(name, oldName, old(prefix), old(cnt)) && cnt == old(cnt) + 1
    {
      DecimalIsNumeral(cnt);
      name := FindEntryNewn(d);
      if name == "" {
        name := oldName + (prefix + Decimal(cnt));
        assert name == oldName + prefix + Decimal(cnt);
        cnt := cnt + 1;
        minted := minted + [Mint(oldName, prefix)];
        assert name == Mint(oldName, prefix).Name(cnt - 1);
        names := names[d := name];
      }
    }

    method SetPrefix(prefix: string)
      requires Valid()
      modifies this
      ensures Valid() && this.prefix == prefix && names == old(names) && minted == old(minted)
    {
      this.prefix := prefix;
    }

    /** The counter goes on: names minted later differ from those forgotten. */
    method Clear()
      requires Valid()
      modifies this
      ensures Valid() && names == map[] && minted == old(minted) && prefix == "_local_"
    {
      names := map[];
      prefix := "_local_";
    }

    /** Entries that are there are kept. */
    method InsertAll(other: map<Decl, string>)
      requires Valid() && NoneEmpty(other)
      modifies this
      ensures Valid() && prefix == old(prefix) && minted == old(minted)
      ensures names == other + old(names)
    {
      names := other + names;
    }
  }
}
