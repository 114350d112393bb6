/** Client tokens: the product id and a 32-bit counter that wraps. */
module Tokens {
  import opened Decimal

  const TOKEN_SPACE: nat := 0x1_0000_0000
  const EVENT_TOKEN_MAX_LEN: nat := 32
  const MAX_SIZE_OF_PRODUCT_ID: nat := 10

  /** "%s-%u" of the product id and the 32-bit counter, when `n` tokens have been issued before. */
  function Token(productId: string, n: nat): string {
    productId + "-" + Digits(n % TOKEN_SPACE)
  }

  /** Until the counter comes round, the number stands in the token as it is; then it starts again from zero. */
  lemma TokenSpelled(productId: string, n: nat)
    ensures n < 4294967296 ==> Token(productId, n) == productId + "-" + Digits(n)
    ensures Token(productId, n + 4294967296) == Token(productId, n)
    ensures Token("ABCDEFGHIJ", 27) == "ABCDEFGHIJ-27"
  {
    assert Digits(27) == Digits(2) + [DigitOf(7)] == "27";
    assert (n + TOKEN_SPACE) % TOKEN_SPACE == n % TOKEN_SPACE;
    hide Digits;
  }

  /** A token and its NUL fit the token buffer. */
  lemma TokenFits(productId: string, n: nat)
    requires |productId| <= MAX_SIZE_OF_PRODUCT_ID
    ensures |Token(productId, n)| <= |productId| + 11 < EVENT_TOKEN_MAX_LEN
  {
    assert Power10(10) == 10_000_000_000 by {
      assert Power10(1) == 10 && Power10(2) == 100 && Power10(3) == 1000;
      assert Power10(6) == 1_000_000;
    }
    DigitsLength(n % TOKEN_SPACE, 10);
  }

  /** Two tokens of one product are equal exactly when the counter has come round between them. */
  lemma TokenEqual(productId: string, m: nat, n: nat)
    ensures Token(productId, m) == Token(productId, n) <==> m % TOKEN_SPACE == n % TOKEN_SPACE
  {
    if Token(productId, m) == Token(productId, n) {
      var p := |productId| + 1;
      assert Token(productId, m)[p..] == Digits(m % TOKEN_SPACE);
      assert Token(productId, n)[p..] == Digits(n % TOKEN_SPACE);
      DigitsInjective(m % TOKEN_SPACE, n % TOKEN_SPACE);
    }
  }

  lemma SameResidue(m: nat, n: nat)
    ensures m % TOKEN_SPACE == n % TOKEN_SPACE <==> (n - m) % TOKEN_SPACE == 0
  {
    var d := n / TOKEN_SPACE - m / TOKEN_SPACE;
    assert n - m == d * TOKEN_SPACE + (n % TOKEN_SPACE - m % TOKEN_SPACE);
  }
}
