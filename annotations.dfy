/**
 * The data-annotation rules the payload classes declare ([Required], [MinLength],
 * [Range]) as predicates on a property's value, and the error records a failed
 * rule produces. The messages of [Required] and [MinLength] are the framework's
 * defaults, which the payload classes do not override.
 */
module Annotations {

  import opened Wrappers
  import Text

  /** A failed rule: the property it belongs to and its message. */
  datatype ValidationError = ValidationError(member: string, message: string)

  /** [Required] on a string (AllowEmptyStrings is false): not null, empty or white space. */
  predicate RequiredIsValid(value: Option<string>)
  {
    !Text.IsNullOrWhiteSpace(value)
  }

  /** [MinLength(length)] on a string: null passes; otherwise the raw, untrimmed
      string.Length counts, in UTF-16 code units. */
  predicate MinLengthIsValid(value: Option<string>, length: nat)
  {
    value.None? || Text.Utf16Length(value.value) >= length
  }

  /** [Range(minimum, maximum)] on an int. */
  predicate RangeIsValid(value: int, minimum: int, maximum: int)
  {
    minimum <= value <= maximum
  }

  function RequiredMessage(member: string): string
  {
    "The " + member + " field is required."
  }

  function MinLengthMessage(member: string, length: nat): string
  {
    "The field " + member + " must be a string or array type with a minimum length of '" + Decimal(length) + "'."
  }

  /** n written in decimal digits. */
  function Decimal(n: nat): string
  {
    var digit := ['0' + (n % 10) as char];
    if n < 10 then digit else Decimal(n / 10) + digit
  }

  /** The error a rule contributes: none when it holds, one for member otherwise. */
  function Check(member: string, valid: bool, message: string): (r: seq<ValidationError>)
    ensures valid ==> r == []
    ensures !valid ==> r == [ValidationError(member, message)]
  {
    if valid then [] else [ValidationError(member, message)]
  }

  /** Some error in r is about member. */
  predicate HasErrorFor(r: seq<ValidationError>, member: string)
  {
    exists e :: e in r && e.member == member
  }

  /** A concatenation has an error for member when one of its parts has. */
  lemma HasErrorForConcat(a: seq<ValidationError>, b: seq<ValidationError>, member: string)
    ensures HasErrorFor(a + b, member) <==> HasErrorFor(a, member) || HasErrorFor(b, member)
  {
    if HasErrorFor(a + b, member) {
      var e :| e in a + b && e.member == member;
      assert e in a || e in b;
    }
  }

  /** When every error in r is about m, r has an error for member exactly
      when it is not empty and member is m. */
  lemma HasErrorForOnly(r: seq<ValidationError>, m: string, member: string)
    requires forall e :: e in r ==> e.member == m
    ensures HasErrorFor(r, member) <==> r != [] && m == member
  {
    if r != [] && m == member {
      assert r[0] in r;
    }
  }

  /** The rules of a property declared `[Required] [MinLength(length)]`, each
      checked on its own, in declaration order. */
  function RequiredMinLengthErrors(member: string, value: Option<string>, length: nat): (r: seq<ValidationError>)
    ensures r == [] <==> value.Some? && !Text.IsBlank(value.value) && Text.Utf16Length(value.value) >= length
    ensures forall e :: e in r ==> e.member == member
    ensures ValidationError(member, RequiredMessage(member)) in r <==> Text.IsNullOrWhiteSpace(value)
  {
    Check(member, RequiredIsValid(value), RequiredMessage(member))
      + Check(member, MinLengthIsValid(value, length), MinLengthMessage(member, length))
  }
}
