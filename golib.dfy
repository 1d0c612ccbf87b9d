/** Stand-ins for the pieces of Go's standard library that both ledger programs call.
    A Go string is a byte string; here a `string` is a `seq<char>` whose characters
    stand for bytes. */
module GoLib {

  /** The two cryptographic library calls, left uninterpreted: `sha256.Sum256`
      (the raw digest bytes of its argument) and `hex.EncodeToString`. Being
      function values they are deterministic; nothing else is known about them. */
  datatype Primitives = Primitives(sum256: string -> string, hexEncode: string -> string)

  ghost predicate Injective(f: string -> string)
  {
    forall x, y :: f(x) == f(y) ==> x == y
  }

  /** Collision freedom of both primitives. It is an ASSUMPTION, only ever taken
      as a precondition by the tamper-detection lemmas. */
  ghost predicate CollisionFree(p: Primitives)
  {
    Injective(p.sum256) && Injective(p.hexEncode)
  }

  /** A longer input never gets a shorter digest (true of SHA-256, whose digest
      length is fixed). Like collision freedom, this is an ASSUMPTION, taken only
      as a precondition. */
  ghost predicate DigestLengthMonotone(p: Primitives)
  {
    forall x, y {:trigger p.sum256(x), p.sum256(y)} :: |x| <= |y| ==> |p.sum256(x)| <= |p.sum256(y)|
  }

  /** The two assumptions can hold together: the identity primitives meet both. */
  lemma AssumptionsSatisfiable()
    ensures CollisionFree(Primitives(x => x, x => x))
    ensures DigestLengthMonotone(Primitives(x => x, x => x))
  {
  }

  /** A value or Go's `error`, carried as its message. */
  datatype Result<T> = Ok(value: T) | Err(error: string)

  datatype Option<T> = None | Some(value: T)

  /** `strings.Repeat(s, count)`; the programs only call it with a non-negative count. */
  function Repeat(s: string, count: nat): string
  {
    if count == 0 then "" else s + Repeat(s, count - 1)
  }

  lemma {:induction false} RepeatZeros(count: nat)
    ensures |Repeat("0", count)| == count
    ensures forall k :: 0 <= k < count ==> Repeat("0", count)[k] == '0'
  {
    if count > 0 {
      RepeatZeros(count - 1);
    }
  }

  /** `strings.HasPrefix(s, prefix)`. */
  predicate HasPrefix(s: string, prefix: string)
  {
    |prefix| <= |s| && s[..|prefix|] == prefix
  }

  /** The character fmt and strconv print for a digit below 16 (lower case). */
  function DigitChar(d: nat): char
    requires d < 16
  {
    if d < 10 then ('0' as int + d) as char else ('a' as int + (d - 10)) as char
  }

  /** The digit a lower-case digit character stands for (0 for any other character). */
  function DigitValue(c: char): nat
  {
    if '0' <= c <= '9' then c as int - '0' as int
    else if 'a' <= c <= 'f' then c as int - 'a' as int + 10
    else 0
  }

  predicate IsDigitOf(c: char, base: nat)
  {
    DigitValue(c) < base && DigitValue(c) < 16 && DigitChar(DigitValue(c)) == c
  }

  /** The digits of `n` in `base`, most significant first and without leading
      zeros: what `strconv.Itoa` (base 10) and the `%x` verb of `fmt.Sprintf`
      (base 16) print for a non-negative integer. */
  function FormatUnsigned(n: nat, base: nat): (s: string)
    requires 2 <= base <= 16
    ensures |s| >= 1
    ensures forall k :: 0 <= k < |s| ==> IsDigitOf(s[k], base)
    ensures s[0] == '0' <==> n == 0
    ensures n == 0 ==> s == "0"
    decreases n
  {
    if n < base then [DigitChar(n)]
    else
      DivideStep(n, base);
      FormatUnsigned(n / base, base) + [DigitChar(n % base)]
  }

  /** Euclidean division facts for one step of FormatUnsigned. */
  lemma DivideStep(n: nat, base: nat)
    requires 2 <= base <= n
    ensures 1 <= n / base < n
    ensures n % base < base
    ensures n == (n / base) * base + n % base
  {
    var q, r := n / base, n % base;
    assert n == q * base + r;
    assert q * base >= q * 2 by {
      assert q >= 0;
    }
  }

  /** Reads digits most significant first; the inverse of FormatUnsigned. */
  function ParseUnsigned(s: string, base: nat): nat
  {
    if s == [] then 0
    else ParseUnsigned(s[..|s| - 1], base) * base + DigitValue(s[|s| - 1])
  }

  lemma {:induction false} ParseFormatUnsigned(n: nat, base: nat)
    requires 2 <= base <= 16
    ensures ParseUnsigned(FormatUnsigned(n, base), base) == n
  {
    var s := FormatUnsigned(n, base);
    if n < base {
      assert s[..0] == [];
    } else {
      DivideStep(n, base);
      assert s[..|s| - 1] == FormatUnsigned(n / base, base);
      ParseFormatUnsigned(n / base, base);
    }
  }

  /** `fmt.Sprintf("%x", i)` for the non-negative counters the nonce search uses. */
  function FormatHex(n: nat): (s: string)
    ensures |s| >= 1 && forall k :: 0 <= k < |s| ==> IsDigitOf(s[k], 16)
    ensures s[0] == '0' <==> n == 0
  {
    FormatUnsigned(n, 16)
  }

  /** Distinct counters give distinct nonce strings. */
  lemma FormatHexInjective(m: nat, n: nat)
    ensures FormatHex(m) == FormatHex(n) <==> m == n
  {
    ParseFormatUnsigned(m, 16);
    ParseFormatUnsigned(n, 16);
  }

  /** `strconv.Itoa(n)`: decimal digits, with a leading '-' for a negative value. */
  function Itoa(n: int): (s: string)
    ensures |s| >= 1
    ensures s[0] == '-' <==> n < 0
    ensures forall k :: (if n < 0 then 1 else 0) <= k < |s| ==> IsDigitOf(s[k], 10)
  {
    if n < 0 then "-" + FormatUnsigned(-n, 10) else FormatUnsigned(n, 10)
  }

  /** Reads what Itoa prints. */
  function Atoi(s: string): int
  {
    if |s| > 0 && s[0] == '-' then -(ParseUnsigned(s[1..], 10) as int) else ParseUnsigned(s, 10)
  }

  lemma ItoaRoundTrip(n: int)
    ensures Atoi(Itoa(n)) == n
  {
    if n < 0 {
      assert Itoa(n)[1..] == FormatUnsigned(-n, 10);
      ParseFormatUnsigned(-n, 10);
    } else {
      ParseFormatUnsigned(n, 10);
    }
  }
}
