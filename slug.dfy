/** Slug generation and custom-alias rules of the Next.js backend (src/lib/slug.ts).
    The random bytes are a parameter. */
module Slug {
  import opened Common

  /** BASE62_CHARS, written as its three runs. */
  const Base62Chars: string := "ABCDEFGHIJKLMNOPQRSTUVWXYZ" + "abcdefghijklmnopqrstuvwxyz" + "0123456789"
  const SlugLength: nat := 7

  /** The alphabet is the 62 ASCII letters and digits. */
  lemma Base62Alphabet()
    ensures |Base62Chars| == 62
    ensures forall i :: 0 <= i < 62 ==> IsAsciiLetter(Base62Chars[i]) || IsDigit(Base62Chars[i])
  {
    forall i | 0 <= i < 62 ensures IsAsciiLetter(Base62Chars[i]) || IsDigit(Base62Chars[i]) {
      if i < 26 {
        assert 'A' <= Base62Chars[i] <= 'Z';
      } else if i < 52 {
        assert 'a' <= Base62Chars[i] <= 'z';
      } else {
        assert '0' <= Base62Chars[i] <= '9';
      }
    }
  }

  /** `generateSlug()` (src/lib/slug.ts:11-15) for the bytes `crypto.getRandomValues` produced. */
  function GenerateSlug(bytes: seq<Byte>): (r: string)
    requires |bytes| == SlugLength
    ensures |r| == SlugLength
    ensures forall i :: 0 <= i < SlugLength ==> r[i] == Base62Chars[bytes[i] % 62]
  {
    MapBase62(bytes)
  }

  function MapBase62(bytes: seq<Byte>): (r: string)
    ensures |r| == |bytes|
    ensures forall i :: 0 <= i < |bytes| ==> r[i] == Base62Chars[bytes[i] % 62]
  {
    if bytes == [] then [] else [Base62Chars[bytes[0] % 62]] + MapBase62(bytes[1..])
  }

  /** Every character of a generated slug is an ASCII letter or digit. */
  lemma GeneratedSlugAlphanumeric(bytes: seq<Byte>)
    requires |bytes| == SlugLength
    ensures forall i :: 0 <= i < |GenerateSlug(bytes)| ==>
      IsAsciiLetter(GenerateSlug(bytes)[i]) || IsDigit(GenerateSlug(bytes)[i])
  {
    Base62Alphabet();
    var r := GenerateSlug(bytes);
    forall i | 0 <= i < |r| ensures IsAsciiLetter(r[i]) || IsDigit(r[i]) {
      assert r[i] == Base62Chars[bytes[i] % 62];
    }
  }

  const ReservedWords: set<string> := {"api", "dashboard", "health", "admin", "login", "settings"}

  const ErrAliasFormat: string :=
    "Alias must be 3-32 characters " + "and contain only letters, " + "numbers, and hyphens."

  function ReservedMessage(alias: string): string
  {
    "The alias \"" + alias + "\" is reserved and cannot be used."
  }

  datatype AliasValidation = AliasValid | AliasInvalid(error: string)

  predicate IsAliasChar(c: char)
  {
    IsAsciiLetter(c) || IsDigit(c) || c == '-'
  }

  /** `/^[a-zA-Z0-9-]{3,32}$/` */
  predicate AliasFormat(alias: string)
  {
    3 <= |alias| <= 32 && forall i :: 0 <= i < |alias| ==> IsAliasChar(alias[i])
  }

  /** `validateAlias(alias)` (src/lib/slug.ts:26-41): the format check, then the reserved words
      compared case-insensitively. */
  function ValidateAlias(alias: string): (r: AliasValidation)
    ensures r.AliasValid? <==> AliasFormat(alias) && ToLower(alias) !in ReservedWords
    ensures !AliasFormat(alias) ==> r == AliasInvalid(ErrAliasFormat)
    ensures AliasFormat(alias) && ToLower(alias) in ReservedWords ==> r == AliasInvalid(ReservedMessage(alias))
  {
    if !AliasFormat(alias) then AliasInvalid(ErrAliasFormat)
    else if ToLower(alias) in ReservedWords then AliasInvalid(ReservedMessage(alias))
    else AliasValid
  }

  /** The two messages can be told apart, so a malformed alias never receives the reserved-word
      error, and the reserved-word error quotes the alias as given, not lower-cased. */
  lemma FormatCheckedFirst(alias: string)
    ensures ValidateAlias(alias) == AliasInvalid(ReservedMessage(alias)) ==>
      AliasFormat(alias) && ToLower(alias) in ReservedWords
    ensures ReservedMessage(alias) != ErrAliasFormat
  {
    assert ReservedMessage(alias)[0] == 'T';
    assert ErrAliasFormat[0] == 'A';
  }

  /** A reserved word is refused in any mix of letter case, e.g. "Admin" or "API". */
  lemma ReservedAnyCase()
    ensures ValidateAlias("API") == AliasInvalid(ReservedMessage("API"))
    ensures ValidateAlias("Admin") == AliasInvalid(ReservedMessage("Admin"))
  {
    assert ToLower("API") == "api";
    assert ToLower("Admin") == "admin";
  }

  /** Underscore is not an alias character. */
  lemma UnderscoreRejected(a: string, b: string)
    ensures ValidateAlias(a + "_" + b) == AliasInvalid(ErrAliasFormat)
  {
    assert (a + "_" + b)[|a|] == '_';
  }

  /** A generated slug passes the alias format check, and never spells a reserved word (those
      have fewer or more than seven letters). */
  lemma GeneratedSlugIsValidAlias(bytes: seq<Byte>)
    requires |bytes| == SlugLength
    ensures ValidateAlias(GenerateSlug(bytes)) == AliasValid
  {
    GeneratedSlugAlphanumeric(bytes);
    var s := GenerateSlug(bytes);
    assert |ToLower(s)| == 7;
    assert forall w :: w in ReservedWords ==> |w| != 7;
  }
}
