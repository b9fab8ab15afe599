/** `boni::nullable<handle_type, null_value>`: a value type that lets a handle
    with no natural null (an integer device id, say) act as a nullable
    pointer, so that `std::unique_ptr` can store it.

    The template argument `null_value` is part of the C++ type; here it is
    passed explicitly to the members that consult it. */
module Nullable {

  /** The only data member is the stored handle (`handle_type value`). */
  datatype Nullable<H> = Nullable(value: H)

  /** Default construction: the member initialiser `value{null_value}`. */
  function Empty<H>(nullValue: H): (n: Nullable<H>)
    ensures ToHandle(n) == nullValue
  {
    Nullable(nullValue)
  }

  /** Construction from `nullptr` delegates to the default constructor. */
  function FromNullptr<H(==)>(nullValue: H): (n: Nullable<H>)
    ensures ToHandle(n) == nullValue
    ensures !IsSet(n, nullValue)
  {
    Empty(nullValue)
  }

  /** Converting construction from the raw handle: stored verbatim. */
  function FromHandle<H>(h: H): (n: Nullable<H>)
    ensures ToHandle(n) == h
  {
    Nullable(h)
  }

  /** Implicit conversion back to the raw handle type: the stored handle,
      from which the nullable is rebuilt without loss. */
  function ToHandle<H>(n: Nullable<H>): (h: H)
    ensures Nullable(h) == n
  {
    n.value
  }

  /** `explicit operator bool`: whether something other than `null_value` is stored. */
  predicate IsSet<H(==)>(n: Nullable<H>, nullValue: H): (b: bool)
    ensures b <==> n != Empty(nullValue)
  {
    n.value != nullValue
  }

  /** `operator==`: compares the stored raw handles. */
  predicate Equal<H(==)>(left: Nullable<H>, right: Nullable<H>): (b: bool)
    ensures b <==> left == right
  {
    ToHandle(left) == ToHandle(right)
  }

  /** `operator!=`: the negation of `operator==`. */
  predicate NotEqual<H(==)>(left: Nullable<H>, right: Nullable<H>): (b: bool)
    ensures b <==> left != right
  {
    !Equal(left, right)
  }

  /** Converting a raw handle in and back out loses nothing, in either order. */
  lemma RoundTrip<H>(h: H, n: Nullable<H>)
    ensures ToHandle(FromHandle(h)) == h
    ensures FromHandle(ToHandle(n)) == n
  {
  }

  /** Default construction and construction from `nullptr` give the same
      value, and that value tests false. */
  lemma EmptyTestsFalse<H>(nullValue: H)
    ensures FromNullptr(nullValue) == Empty(nullValue)
    ensures !IsSet(Empty(nullValue), nullValue)
  {
  }

  /** The `NullablePointer` requirement on `operator bool`: false exactly
      when the value compares equal to a null-constructed one. */
  lemma IsSetIffNotNull<H>(n: Nullable<H>, nullValue: H)
    ensures IsSet(n, nullValue) <==> NotEqual(n, FromNullptr(nullValue))
    ensures !IsSet(n, nullValue) <==> n == Empty(nullValue)
  {
  }

  /** A raw handle equal to `null_value` cannot be told apart from an empty
      value. This is the trade-off boni.hpp:65-68 states: `operator bool` is
      false if and only if the value equals the null value, so a genuine
      handle that happens to equal `null_value` reads as null. */
  lemma SentinelCollision<H>(nullValue: H)
    ensures FromHandle(nullValue) == Empty(nullValue)
    ensures !IsSet(FromHandle(nullValue), nullValue)
  {
  }

  /** Every raw handle other than `null_value` tests true once wrapped. */
  lemma NonSentinelTestsTrue<H>(h: H, nullValue: H)
    requires h != nullValue
    ensures IsSet(FromHandle(h), nullValue)
  {
  }

  /** `operator==` is an equivalence that coincides with equality of the
      values, and `operator!=` is exactly its negation. */
  lemma EqualityLaws<H>(a: Nullable<H>, b: Nullable<H>, c: Nullable<H>)
    ensures Equal(a, a)
    ensures Equal(a, b) <==> Equal(b, a)
    ensures Equal(a, b) && Equal(b, c) ==> Equal(a, c)
    ensures Equal(a, b) <==> a == b
    ensures NotEqual(a, b) <==> !Equal(a, b)
    ensures NotEqual(a, b) <==> NotEqual(b, a)
  {
  }
}
