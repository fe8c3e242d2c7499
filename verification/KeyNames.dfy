/** Which keys rule 1 removes, told without the normalisation. */
module KeyNames {
  import opened Text
  import opened Json
  import opened ScrubWalk
  import opened ScrubGuarantees

  // ----- spelling -------------------------------------------------------------------------

  /** What may stand anywhere in a key without making a difference. */
  predicate IsSeparator(c: char) {
    IsSpace(c) || c in "_-." || c in "\U{200B}\U{200C}\U{200D}\U{FEFF}"
  }

  predicate IsAscii(c: char) {
    c < '\U{80}'
  }

  /** A key of ASCII characters and separators. */
  predicate IsPlainKey(key: string) {
    forall i | 0 <= i < |key| :: IsAscii(key[i]) || IsSeparator(key[i])
  }

  /** `key` spells `name`, with separators anywhere and in any case. */
  predicate Spells(key: string, name: string) {
    if key == "" then name == ""
    else if IsSeparator(key[0]) then Spells(key[1..], name)
    else name != "" && SameLetter(key[0], name[0]) && Spells(key[1..], name[1..])
  }

  /** The credential names, without separators and in lower case. */
  const NAMES := [
    "bedrockagentcorepropagatedheaders",
    "xtvmaccesskeyid", "xtvmsecretaccesskey", "xtvmsessiontoken",
    "context", "credentials",
    "accesskeyid", "secretaccesskey", "sessiontoken",
    "awsaccesskeyid", "awssecretaccesskey", "awssessiontoken",
    "securitytoken", "awssecuritytoken",
    "xamzcredential", "xamzsignature", "xamzsecuritytoken"
  ]

  predicate SpellsCredential(key: string) {
    exists k | 0 <= k < |NAMES| :: Spells(key, NAMES[k])
  }

  /** What NFKC and case folding do to ASCII, and NFKC to separators. */
  ghost predicate KnowsAscii(p: Platform) {
    && (forall s: string | IsPlainKey(s) :: SameBesideSeparators(s, p.nfkc(s)))
    && (forall s: string | (forall i | 0 <= i < |s| :: IsAscii(s[i])) :: p.casefold(s) == Lower(s))
  }

  predicate SameBesideSeparators(s: string, t: string) {
    && |t| == |s|
    && forall i | 0 <= i < |s| :: if IsSeparator(s[i]) then IsSeparator(t[i]) else t[i] == s[i]
  }

  // ----- the normalised form --------------------------------------------------------------

  lemma NoiseIsSeparators(c: char)
    ensures IsKeyNoise(c) <==> IsSeparator(c)
  {
  }

  lemma {:induction false} NoiseGoes(s: string, t: string)
    requires SameBesideSeparators(s, t)
    ensures WithoutNoise(t) == WithoutNoise(s)
    decreases |s|
  {
    hide IsKeyNoise, IsSeparator;
    if s != "" {
      NoiseIsSeparators(s[0]);
      NoiseIsSeparators(t[0]);
      assert SameBesideSeparators(s[1..], t[1..]);
      NoiseGoes(s[1..], t[1..]);
    }
  }

  lemma {:induction false} WithoutNoiseIsAscii(s: string)
    requires IsPlainKey(s)
    ensures forall i | 0 <= i < |WithoutNoise(s)| :: IsAscii(WithoutNoise(s)[i]) && !IsSeparator(WithoutNoise(s)[i])
    decreases |s|
  {
    hide IsKeyNoise, IsSeparator;
    if s != "" {
      NoiseIsSeparators(s[0]);
      WithoutNoiseIsAscii(s[1..]);
    }
  }

  lemma NormalForm(p: Platform, key: string)
    requires KnowsAscii(p) && IsPlainKey(key)
    ensures NormaliseKey(p, key) == Lower(WithoutNoise(key))
  {
    hide IsKeyNoise, IsSeparator, WithoutNoise, Lower;
    NoiseGoes(key, p.nfkc(key));
    WithoutNoiseIsAscii(key);
  }

  /** Spelling is equality of the normal forms. */
  lemma {:induction false} SpellsIffSameForm(key: string, name: string)
    requires AllLower(name)
    ensures Spells(key, name) <==> Lower(WithoutNoise(key)) == name
    decreases |key|
  {
    hide IsKeyNoise, IsSeparator, SameLetter;
    if key != "" {
      NoiseIsSeparators(key[0]);
      if IsSeparator(key[0]) {
        SpellsIffSameForm(key[1..], name);
      } else {
        var form := Lower(WithoutNoise(key));
        assert form == [LowerChar(key[0])] + Lower(WithoutNoise(key[1..]));
        if name != "" {
          SameLetterIffSameLower(key[0], name[0]);
          SpellsIffSameForm(key[1..], name[1..]);
          assert name == [name[0]] + name[1..];
          assert form[0] == LowerChar(key[0]) && form[1..] == Lower(WithoutNoise(key[1..]));
        }
      }
    }
  }

  // ----- the listed names -----------------------------------------------------------------

  lemma {:induction false} NoiseOfParts(a: string, b: string)
    ensures WithoutNoise(a + b) == WithoutNoise(a) + WithoutNoise(b)
    decreases |a|
  {
    hide IsKeyNoise;
    if a == "" {
      assert a + b == b;
    } else {
      assert (a + b)[1..] == a[1..] + b;
      NoiseOfParts(a[1..], b);
    }
  }

  predicate IsWord(s: string) {
    forall i | 0 <= i < |s| :: IsLower(s[i]) || IsUpper(s[i])
  }

  lemma {:induction false} WordsStay(s: string)
    requires IsWord(s)
    ensures WithoutNoise(s) == s
    decreases |s|
  {
    if s != "" {
      WordsStay(s[1..]);
    }
  }

  predicate IsMark(s: string) {
    s == "-" || s == "_"
  }

  lemma MarksGo(a: string, mark: string, b: string)
    requires IsWord(a) && IsMark(mark)
    ensures WithoutNoise(a + mark + b) == a + WithoutNoise(b)
  {
    hide WithoutNoise, IsMark;
    NoiseOfParts(a + mark, b);
    NoiseOfParts(a, mark);
    WordsStay(a);
    MarkAlone(mark);
    assert a + "" == a;
  }

  lemma MarkAlone(mark: string)
    requires IsMark(mark)
    ensures WithoutNoise(mark) == ""
  {
    assert mark[1..] == "";
  }

  lemma TwoWords(a: string, mark: string, b: string)
    requires IsWord(a) && IsMark(mark) && IsWord(b)
    ensures WithoutNoise(a + mark + b) == a + b
  {
    MarksGo(a, mark, b);
    WordsStay(b);
  }

  lemma ThreeWords(a: string, mark: string, b: string, c: string)
    requires IsWord(a) && IsMark(mark) && IsWord(b) && IsWord(c)
    ensures WithoutNoise(a + mark + (b + mark + c)) == a + (b + c)
  {
    MarksGo(a, mark, b + mark + c);
    TwoWords(b, mark, c);
  }

  lemma FourWords(a: string, mark: string, b: string, c: string, d: string)
    requires IsWord(a) && IsMark(mark) && IsWord(b) && IsWord(c) && IsWord(d)
    ensures WithoutNoise(a + mark + (b + mark + (c + mark + d))) == a + (b + (c + d))
  {
    MarksGo(a, mark, b + mark + (c + mark + d));
    ThreeWords(b, mark, c, d);
  }

  lemma FiveWords(a: string, mark: string, b: string, c: string, d: string, e: string)
    requires IsWord(a) && IsMark(mark) && IsWord(b) && IsWord(c) && IsWord(d) && IsWord(e)
    ensures WithoutNoise(a + mark + (b + mark + (c + mark + (d + mark + e)))) == a + (b + (c + (d + e)))
  {
    MarksGo(a, mark, b + mark + (c + mark + (d + mark + e)));
    FourWords(b, mark, c, d, e);
  }

  lemma FormOfWords(spelling: string, name: string)
    requires WithoutNoise(spelling) == name && AllLower(name)
    ensures Lower(WithoutNoise(spelling)) == name
  {
  }

  lemma PropagatedHeaders()
    ensures Lower("bedrockAgentCorePropagatedHeaders") == "bedrockagentcorepropagatedheaders"
  {
  }

  lemma PlainNames()
    ensures Lower(WithoutNoise("bedrockAgentCorePropagatedHeaders")) == "bedrockagentcorepropagatedheaders"
    ensures Lower(WithoutNoise("context")) == "context"
    ensures Lower(WithoutNoise("credentials")) == "credentials"
  {
    hide WithoutNoise, Lower;
    WordsStay("bedrockAgentCorePropagatedHeaders");
    PropagatedHeaders();
    WordsStay("context");
    FormOfWords("context", "context");
    WordsStay("credentials");
    FormOfWords("credentials", "credentials");
  }

  lemma ShortWords()
    ensures IsWord("x") && IsWord("tvm") && IsWord("amz") && IsWord("aws") && IsWord("key") && IsWord("id")
  {
  }

  lemma LongWords()
    ensures IsWord("access") && IsWord("secret") && IsWord("session") && IsWord("token")
    ensures IsWord("security") && IsWord("credential") && IsWord("signature")
  {
  }

  lemma TheWords()
    ensures IsWord("x") && IsWord("tvm") && IsWord("amz") && IsWord("aws") && IsWord("key") && IsWord("id")
    ensures IsWord("access") && IsWord("secret") && IsWord("session") && IsWord("token")
    ensures IsWord("security") && IsWord("credential") && IsWord("signature")
  {
    hide IsWord;
    ShortWords();
    LongWords();
  }

  lemma TvmKeyIdNames()
    ensures Lower(WithoutNoise("x-tvm-access-key-id")) == "xtvmaccesskeyid"
  {
    hide WithoutNoise, Lower, IsWord, AllLower;
    TheWords();
    FirstNamesAreLower();
    FiveWords("x", "-", "tvm", "access", "key", "id");
    assert "x" + "-" + ("tvm" + "-" + ("access" + "-" + ("key" + "-" + "id"))) == "x-tvm-access-key-id";
    FormOfWords("x-tvm-access-key-id", "xtvmaccesskeyid");
  }

  lemma TvmSecretNames()
    ensures Lower(WithoutNoise("x-tvm-secret-access-key")) == "xtvmsecretaccesskey"
  {
    hide WithoutNoise, Lower, IsWord, AllLower;
    TheWords();
    FirstNamesAreLower();
    FiveWords("x", "-", "tvm", "secret", "access", "key");
    assert "x" + "-" + ("tvm" + "-" + ("secret" + "-" + ("access" + "-" + "key"))) == "x-tvm-secret-access-key";
    FormOfWords("x-tvm-secret-access-key", "xtvmsecretaccesskey");
  }

  lemma TvmTokenNames()
    ensures Lower(WithoutNoise("x-tvm-session-token")) == "xtvmsessiontoken"
  {
    hide WithoutNoise, Lower, IsWord, AllLower;
    TheWords();
    FirstNamesAreLower();
    FourWords("x", "-", "tvm", "session", "token");
    assert "x" + "-" + ("tvm" + "-" + ("session" + "-" + "token")) == "x-tvm-session-token";
    FormOfWords("x-tvm-session-token", "xtvmsessiontoken");
  }

  lemma KeyIdNames()
    ensures Lower(WithoutNoise("access_key_id")) == "accesskeyid"
  {
    hide WithoutNoise, Lower, IsWord, AllLower;
    TheWords();
    SecondNamesAreLower();
    ThreeWords("access", "_", "key", "id");
    assert "access" + "_" + ("key" + "_" + "id") == "access_key_id";
    FormOfWords("access_key_id", "accesskeyid");
  }

  lemma SecretNames()
    ensures Lower(WithoutNoise("secret_access_key")) == "secretaccesskey"
  {
    hide WithoutNoise, Lower, IsWord, AllLower;
    TheWords();
    SecondNamesAreLower();
    ThreeWords("secret", "_", "access", "key");
    assert "secret" + "_" + ("access" + "_" + "key") == "secret_access_key";
    FormOfWords("secret_access_key", "secretaccesskey");
  }

  lemma TokenNames()
    ensures Lower(WithoutNoise("session_token")) == "sessiontoken"
    ensures Lower(WithoutNoise("security_token")) == "securitytoken"
  {
    hide WithoutNoise, Lower, IsWord, AllLower;
    TheWords();
    SecondNamesAreLower();
    ThirdNamesAreLower();
    TwoWords("session", "_", "token");
    assert "session" + "_" + "token" == "session_token";
    FormOfWords("session_token", "sessiontoken");
    TwoWords("security", "_", "token");
    assert "security" + "_" + "token" == "security_token";
    FormOfWords("security_token", "securitytoken");
  }

  lemma AwsKeyIdNames()
    ensures Lower(WithoutNoise("aws_access_key_id")) == "awsaccesskeyid"
  {
    hide WithoutNoise, Lower, IsWord, AllLower;
    TheWords();
    ThirdNamesAreLower();
    FourWords("aws", "_", "access", "key", "id");
    assert "aws" + "_" + ("access" + "_" + ("key" + "_" + "id")) == "aws_access_key_id";
    FormOfWords("aws_access_key_id", "awsaccesskeyid");
  }

  lemma AwsSecretNames()
    ensures Lower(WithoutNoise("aws_secret_access_key")) == "awssecretaccesskey"
  {
    hide WithoutNoise, Lower, IsWord, AllLower;
    TheWords();
    ThirdNamesAreLower();
    FourWords("aws", "_", "secret", "access", "key");
    assert "aws" + "_" + ("secret" + "_" + ("access" + "_" + "key")) == "aws_secret_access_key";
    FormOfWords("aws_secret_access_key", "awssecretaccesskey");
  }

  lemma AwsTokenNames()
    ensures Lower(WithoutNoise("aws_session_token")) == "awssessiontoken"
  {
    hide WithoutNoise, Lower, IsWord, AllLower;
    TheWords();
    ThirdNamesAreLower();
    ThreeWords("aws", "_", "session", "token");
    assert "aws" + "_" + ("session" + "_" + "token") == "aws_session_token";
    FormOfWords("aws_session_token", "awssessiontoken");
  }

  lemma AwsSecurityNames()
    ensures Lower(WithoutNoise("aws_security_token")) == "awssecuritytoken"
  {
    hide WithoutNoise, Lower, IsWord, AllLower;
    TheWords();
    LastNamesAreLower();
    ThreeWords("aws", "_", "security", "token");
    assert "aws" + "_" + ("security" + "_" + "token") == "aws_security_token";
    FormOfWords("aws_security_token", "awssecuritytoken");
  }

  lemma AmzCredentialNames()
    ensures Lower(WithoutNoise("x-amz-credential")) == "xamzcredential"
  {
    hide WithoutNoise, Lower, IsWord, AllLower;
    TheWords();
    LastNamesAreLower();
    ThreeWords("x", "-", "amz", "credential");
    assert "x" + "-" + ("amz" + "-" + "credential") == "x-amz-credential";
    FormOfWords("x-amz-credential", "xamzcredential");
  }

  lemma AmzSignatureNames()
    ensures Lower(WithoutNoise("x-amz-signature")) == "xamzsignature"
  {
    hide WithoutNoise, Lower, IsWord, AllLower;
    TheWords();
    LastNamesAreLower();
    ThreeWords("x", "-", "amz", "signature");
    assert "x" + "-" + ("amz" + "-" + "signature") == "x-amz-signature";
    FormOfWords("x-amz-signature", "xamzsignature");
  }

  lemma AmzSecurityNames()
    ensures Lower(WithoutNoise("x-amz-security-token")) == "xamzsecuritytoken"
  {
    hide WithoutNoise, Lower, IsWord, AllLower;
    TheWords();
    LastNamesAreLower();
    FourWords("x", "-", "amz", "security", "token");
    assert "x" + "-" + ("amz" + "-" + ("security" + "-" + "token")) == "x-amz-security-token";
    FormOfWords("x-amz-security-token", "xamzsecuritytoken");
  }

  lemma FormsOfTheNames(k: nat)
    requires k < |NAMES|
    ensures |NAMES| == |CREDENTIAL_KEY_SPELLINGS| && Lower(WithoutNoise(CREDENTIAL_KEY_SPELLINGS[k])) == NAMES[k]
  {
    hide WithoutNoise, Lower;
    PlainNames();
    TvmKeyIdNames();
    TvmSecretNames();
    TvmTokenNames();
    KeyIdNames();
    SecretNames();
    TokenNames();
    AwsKeyIdNames();
    AwsSecretNames();
    AwsTokenNames();
    AwsSecurityNames();
    AmzCredentialNames();
    AmzSignatureNames();
    AmzSecurityNames();
  }

  predicate AllAscii(s: string) {
    forall i | 0 <= i < |s| :: IsAscii(s[i])
  }

  predicate AllLower(s: string) {
    forall i | 0 <= i < |s| :: IsLower(s[i])
  }

  lemma FirstSpellingsAreAscii()
    ensures AllAscii("bedrockAgentCorePropagatedHeaders")
    ensures AllAscii("x-tvm-access-key-id")
    ensures AllAscii("x-tvm-secret-access-key")
    ensures AllAscii("x-tvm-session-token")
    ensures AllAscii("context")
  {
  }

  lemma FirstNamesAreLower()
    ensures AllLower("bedrockagentcorepropagatedheaders")
    ensures AllLower("xtvmaccesskeyid")
    ensures AllLower("xtvmsecretaccesskey")
    ensures AllLower("xtvmsessiontoken")
    ensures AllLower("context")
  {
  }

  lemma SecondSpellingsAreAscii()
    ensures AllAscii("credentials")
    ensures AllAscii("access_key_id")
    ensures AllAscii("secret_access_key")
    ensures AllAscii("session_token")
  {
  }

  lemma SecondNamesAreLower()
    ensures AllLower("credentials")
    ensures AllLower("accesskeyid")
    ensures AllLower("secretaccesskey")
    ensures AllLower("sessiontoken")
  {
  }

  lemma ThirdSpellingsAreAscii()
    ensures AllAscii("aws_access_key_id")
    ensures AllAscii("aws_secret_access_key")
    ensures AllAscii("aws_session_token")
    ensures AllAscii("security_token")
  {
  }

  lemma ThirdNamesAreLower()
    ensures AllLower("awsaccesskeyid")
    ensures AllLower("awssecretaccesskey")
    ensures AllLower("awssessiontoken")
    ensures AllLower("securitytoken")
  {
  }

  lemma LastSpellingsAreAscii()
    ensures AllAscii("aws_security_token")
    ensures AllAscii("x-amz-credential")
    ensures AllAscii("x-amz-signature")
    ensures AllAscii("x-amz-security-token")
  {
  }

  lemma LastNamesAreLower()
    ensures AllLower("awssecuritytoken")
    ensures AllLower("xamzcredential")
    ensures AllLower("xamzsignature")
    ensures AllLower("xamzsecuritytoken")
  {
  }

  lemma SpellingsArePlain(k: nat)
    requires k < |CREDENTIAL_KEY_SPELLINGS|
    ensures IsPlainKey(CREDENTIAL_KEY_SPELLINGS[k])
  {
    hide AllAscii;
    FirstSpellingsAreAscii();
    SecondSpellingsAreAscii();
    ThirdSpellingsAreAscii();
    LastSpellingsAreAscii();
    AsciiIsPlain(CREDENTIAL_KEY_SPELLINGS[k]);
  }

  lemma AsciiIsPlain(s: string)
    ensures AllAscii(s) ==> IsPlainKey(s)
  {
    hide IsSeparator;
  }

  lemma NamesAreLower(k: nat)
    requires k < |NAMES|
    ensures AllLower(NAMES[k])
  {
    hide AllLower;
    FirstNamesAreLower();
    SecondNamesAreLower();
    ThirdNamesAreLower();
    LastNamesAreLower();
  }

  lemma SpellsThisName(p: Platform, key: string, k: nat)
    requires KnowsAscii(p) && IsPlainKey(key) && k < |NAMES|
    ensures |NAMES| == |CREDENTIAL_KEY_SPELLINGS|
    ensures NormaliseKey(p, CREDENTIAL_KEY_SPELLINGS[k]) == NormaliseKey(p, key) <==> Spells(key, NAMES[k])
  {
    hide KnowsAscii, IsPlainKey, NormaliseKey, WithoutNoise, Lower, Spells;
    FormsOfTheNames(k);
    SpellingsArePlain(k);
    NamesAreLower(k);
    NormalForm(p, key);
    NormalForm(p, CREDENTIAL_KEY_SPELLINGS[k]);
    SpellsIffSameForm(key, NAMES[k]);
  }

  /** A key of ASCII characters and separators is a credential key exactly when it spells one of the
      17 names, in any case and with separators anywhere. */
  lemma CredentialKeyIff(p: Platform, key: string)
    requires KnowsAscii(p) && IsPlainKey(key)
    ensures IsCredentialKey(p, key) <==> SpellsCredential(key)
  {
    hide KnowsAscii, IsPlainKey, NormaliseKey, Spells;
    SameNumber();
    forall k: nat | k < |NAMES|
      ensures NormaliseKey(p, CREDENTIAL_KEY_SPELLINGS[k]) == NormaliseKey(p, key) <==> Spells(key, NAMES[k])
    {
      SpellsThisName(p, key, k);
    }
  }

  lemma SameNumber()
    ensures |NAMES| == |CREDENTIAL_KEY_SPELLINGS| == 17
  {
  }

  // ----- what makes no difference ---------------------------------------------------------

  lemma {:induction false} SeparatorChangesNoSpelling(a: string, c: char, b: string, name: string)
    requires IsSeparator(c)
    ensures Spells(a + [c] + b, name) <==> Spells(a + b, name)
    decreases |a|
  {
    hide IsSeparator, SameLetter;
    if a == "" {
      assert ([] + [c] + b)[1..] == b && a + b == b && a + [c] + b == [c] + b;
    } else {
      assert (a + [c] + b)[1..] == a[1..] + [c] + b && (a + b)[1..] == a[1..] + b;
      SeparatorChangesNoSpelling(a[1..], c, b, name);
      if name != "" {
        SeparatorChangesNoSpelling(a[1..], c, b, name[1..]);
      }
    }
  }

  lemma {:induction false} CaseChangesNoSpelling(a: string, c: char, d: char, b: string, name: string)
    requires SameLetter(c, d) && IsSeparator(c) == IsSeparator(d) && AllLower(name)
    ensures Spells(a + [c] + b, name) <==> Spells(a + [d] + b, name)
    decreases |a|
  {
    hide IsSeparator;
    if a == "" {
      assert (a + [c] + b)[1..] == b == (a + [d] + b)[1..];
    } else {
      assert (a + [c] + b)[1..] == a[1..] + [c] + b && (a + [d] + b)[1..] == a[1..] + [d] + b;
      CaseChangesNoSpelling(a[1..], c, d, b, name);
      if name != "" {
        CaseChangesNoSpelling(a[1..], c, d, b, name[1..]);
      }
    }
  }

  lemma LettersAreNoSeparators(c: char)
    requires IsLower(c) || IsUpper(c)
    ensures !IsSeparator(c) && IsAscii(c)
  {
  }

  /** Whether a key is removed does not change when a separator is put in or taken out anywhere. */
  lemma SeparatorsMakeNoDifference(p: Platform, a: string, c: char, b: string)
    requires KnowsAscii(p) && IsPlainKey(a + b) && IsSeparator(c)
    ensures IsCredentialKey(p, a + [c] + b) <==> IsCredentialKey(p, a + b)
  {
    hide KnowsAscii, IsCredentialKey, IsSeparator, Spells;
    var with, without := a + [c] + b, a + b;
    forall i | 0 <= i < |with| ensures IsAscii(with[i]) || IsSeparator(with[i]) {
      assert with[i] == if i < |a| then without[i] else if i == |a| then c else without[i - 1];
    }
    CredentialKeyIff(p, with);
    CredentialKeyIff(p, without);
    forall k | 0 <= k < |NAMES| ensures Spells(with, NAMES[k]) <==> Spells(without, NAMES[k]) {
      SeparatorChangesNoSpelling(a, c, b, NAMES[k]);
    }
  }

  /** Nor when any letter changes its case. */
  lemma CaseMakesNoDifference(p: Platform, a: string, c: char, d: char, b: string)
    requires KnowsAscii(p) && IsPlainKey(a + [c] + b) && IsUpper(c) && d as int == c as int + 32
    ensures IsCredentialKey(p, a + [c] + b) <==> IsCredentialKey(p, a + [d] + b)
  {
    hide KnowsAscii, IsCredentialKey, IsSeparator, Spells, NAMES;
    var upper, lower := a + [c] + b, a + [d] + b;
    LettersAreNoSeparators(c);
    LettersAreNoSeparators(d);
    assert IsPlainKey(lower) by {
      assert forall i | 0 <= i < |lower| :: lower[i] == if i == |a| then d else upper[i];
    }
    CredentialKeyIff(p, upper);
    CredentialKeyIff(p, lower);
    forall k: nat | k < |NAMES| ensures Spells(upper, NAMES[k]) <==> Spells(lower, NAMES[k]) {
      NamesAreLower(k);
      CaseChangesNoSpelling(a, c, d, b, NAMES[k]);
    }
  }

  // ----- what the scrub does to such entries ----------------------------------------------

  /** No dict nested in `y` has a key that spells a credential name. */
  predicate NoNameSpelled(y: Json) {
    && (y.Obj? ==> forall i | 0 <= i < |y.entries| ::
          IsPlainKey(y.entries[i].key) ==> !SpellsCredential(y.entries[i].key))
    && (y.IsContainer() ==> forall i | 0 <= i < |y.Children()| :: NoNameSpelled(y.Children()[i]))
  }

  lemma {:induction false} NoKeysNoNames(p: Platform, y: Json)
    requires KnowsAscii(p) && NoCredentialKeys(p, y)
    ensures NoNameSpelled(y)
    decreases y
  {
    hide KnowsAscii, IsCredentialKey, SpellsCredential, IsPlainKey;
    if y.Obj? {
      forall i | 0 <= i < |y.entries| && IsPlainKey(y.entries[i].key) ensures !SpellsCredential(y.entries[i].key) {
        CredentialKeyIff(p, y.entries[i].key);
      }
    }
    if y.IsContainer() {
      forall i | 0 <= i < |y.Children()| ensures NoNameSpelled(y.Children()[i]) {
        NoKeysNoNames(p, y.Children()[i]);
      }
    }
  }

  /** At no depth of the returned body does a key spell a credential name. */
  lemma NoCredentialNameSurvives(p: Platform, v: Json)
    requires p.Lawful() && KnowsAscii(p) && WellFormed(v) && Scrub(p, v).Done?
    ensures NoNameSpelled(Scrub(p, v).value)
  {
    hide Scrub, WellFormed, NoCredentialKeys, NoNameSpelled, KnowsAscii;
    NoCredentialKeySurvives(p, v);
    NoKeysNoNames(p, Scrub(p, v).value);
  }

  /** A text that opens like JSON, is no longer than the cap and decodes to a container comes back as
      a text that decodes to one in which no key spells a credential name. */
  lemma NoCredentialNameInStrings(p: Platform, text: string, depth: nat)
    requires p.Lawful() && KnowsAscii(p) && depth < MAX_BODY_DEPTH && ScrubString(p, text, depth).Done?
    requires OpensContainer(text) && |text| <= 1048576 && p.loads(text).Loaded? && p.loads(text).v.IsContainer()
    ensures var back := p.loads(ScrubString(p, text, depth).value); back.Loaded? && NoNameSpelled(back.v)
  {
    hide ScrubString, NoCredentialKeys, NoNameSpelled, KnowsAscii, Embedded, Platform.Lawful, Cleaned, OpensContainer;
    EmbeddedIff(p, text);
    assert Embedded(p, text) == Loaded(p.loads(text).v);
    EmbeddedJsonIsCleaned(p, text, depth);
    NoKeysNoNames(p, p.loads(ScrubString(p, text, depth).value).v);
  }

  /** An entry whose key spells a credential name is gone with all that hangs under it, and counts 1:
      without it the rest would have come out the same, one removal cheaper. */
  lemma {:induction false} SpelledEntryIsRemoved(p: Platform, before: seq<Entry>, e: Entry, after: seq<Entry>,
      depth: nat)
    requires KnowsAscii(p) && IsPlainKey(e.key) && SpellsCredential(e.key) && depth < MAX_BODY_DEPTH
    ensures var there, gone := ScrubEntries(p, before + [e] + after, depth), ScrubEntries(p, before + after, depth);
      && there.Done? == gone.Done?
      && (there.Done? ==> there.value == gone.value && there.removed == gone.removed + 1)
    decreases |before|
  {
    hide KnowsAscii, SpellsCredential, IsPlainKey, IsCredentialKey, ScrubChild;
    CredentialKeyIff(p, e.key);
    if before == [] {
      assert before + [e] + after == [e] + after && before + after == after && ([e] + after)[1..] == after;
    } else {
      assert (before + [e] + after)[1..] == before[1..] + [e] + after && (before + after)[1..] == before[1..] + after;
      SpelledEntryIsRemoved(p, before[1..], e, after, depth);
    }
  }
}
