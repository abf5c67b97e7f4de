// The address pattern of `MailerUtils.get_name_email_tuple`, written as
// predicates over strings, one per part of the regular expression:
//
//   name    ([\w.,]+\s+)*[\w.,]+   then \s* and '<'   (the whole group optional)
//   email   [\w\d.+-]+ @ ([\w\d.]+\.)+ (com|org|edu)
//   then    an optional '>'
//
// `\w` and `\s` are read over ASCII: letters, digits and '_'; the six
// ASCII white-space characters.

module AddressGrammar {

  predicate IsWordChar(c: char)
  {
    ('a' <= c <= 'z') || ('A' <= c <= 'Z') || ('0' <= c <= '9') || c == '_'
  }

  /** `[\w\d.+-]` */
  predicate IsUserChar(c: char)
  {
    IsWordChar(c) || c == '.' || c == '+' || c == '-'
  }

  /** `[\w\d.]` */
  predicate IsDomainChar(c: char)
  {
    IsWordChar(c) || c == '.'
  }

  /** `[\w.,]` */
  predicate IsNameChar(c: char)
  {
    IsWordChar(c) || c == '.' || c == ','
  }

  /** `\s` under `re.UNICODE`, over ASCII: the usual six, and the separators 0x1C to 0x1F. */
  predicate IsSpace(c: char)
  {
    c == ' ' || c == '\t' || c == '\n' || c == '\r' || c == '\U{000B}' || c == '\U{000C}' ||
    ('\U{001C}' <= c <= '\U{001F}')
  }

  /** The character classes the scanner runs over. */
  datatype CharClass = UserCls | DomainCls | NameCls | NameOrSpaceCls | SpaceCls

  predicate InClass(c: char, cls: CharClass)
  {
    match cls
    case UserCls => IsUserChar(c)
    case DomainCls => IsDomainChar(c)
    case NameCls => IsNameChar(c)
    case NameOrSpaceCls => IsNameChar(c) || IsSpace(c)
    case SpaceCls => IsSpace(c)
  }

  /** The end of the longest run of `cls` characters starting at `i`. */
  function RunEnd(s: string, i: nat, cls: CharClass): (j: nat)
    requires i <= |s|
    ensures i <= j <= |s|
    ensures forall k :: i <= k < j ==> InClass(s[k], cls)
    ensures j < |s| ==> !InClass(s[j], cls)
    decreases |s| - i
  {
    if i < |s| && InClass(s[i], cls) then RunEnd(s, i + 1, cls) else i
  }

  /** `[\w\d.+-]+` */
  ghost predicate UserPart(x: string)
  {
    |x| > 0 && forall i :: 0 <= i < |x| ==> IsUserChar(x[i])
  }

  /** One `[\w\d.]+\.` */
  ghost predicate DomainLabel(x: string)
  {
    |x| >= 2 && x[|x| - 1] == '.' && forall i :: 0 <= i < |x| - 1 ==> IsDomainChar(x[i])
  }

  /** `([\w\d.]+\.)+`: one label, or a label followed by more of them. */
  ghost predicate DomainPrefix(x: string)
    decreases |x|
  {
    DomainLabel(x) || exists k :: 2 <= k < |x| && DomainLabel(x[..k]) && DomainPrefix(x[k..])
  }

  /** `(com|org|edu)` */
  predicate Tld(x: string)
  {
    x == "com" || x == "org" || x == "edu"
  }

  /** `t` is the user part `t[..at]`, '@', the domain prefix `t[at+1..m]` and a TLD. */
  ghost predicate AddressSplit(t: string, at: nat, m: nat)
  {
    0 < at < m <= |t| && UserPart(t[..at]) && t[at] == '@' && DomainPrefix(t[at + 1..m]) && Tld(t[m..])
  }

  /** The `email` group. */
  ghost predicate Address(t: string)
  {
    exists at: nat, m: nat :: AddressSplit(t, at, m)
  }

  /** Some substring of `s` is an address: what `pattern.search` needs to succeed. */
  ghost predicate HasAddress(s: string)
  {
    exists i, j :: 0 <= i <= j <= |s| && Address(s[i..j])
  }

  /** `[\w.,]+` */
  ghost predicate NameWord(x: string)
  {
    |x| > 0 && forall i :: 0 <= i < |x| ==> IsNameChar(x[i])
  }

  /** `\s*` */
  ghost predicate AllSpace(x: string)
  {
    forall i :: 0 <= i < |x| ==> IsSpace(x[i])
  }

  /** `([\w.,]+\s+)*[\w.,]+`: a last word, or a word, some space and more name. */
  ghost predicate Name(x: string)
    decreases |x|
  {
    NameWord(x) ||
    exists k, j :: 0 < k < j < |x| && NameWord(x[..k]) && |x[k..j]| > 0 && AllSpace(x[k..j]) && Name(x[j..])
  }

  /** The same language, described by its characters. */
  ghost predicate NameChars(x: string)
  {
    && |x| > 0 && IsNameChar(x[0]) && IsNameChar(x[|x| - 1])
    && forall i :: 0 <= i < |x| ==> IsNameChar(x[i]) || IsSpace(x[i])
  }

  /** The repetition `([\w\d.]+\.)+` accepts exactly the strings a single label accepts. */
  lemma {:induction false} DomainPrefixIsLabel(x: string)
    ensures DomainPrefix(x) <==> DomainLabel(x)
    decreases |x|
  {
    if exists k :: 2 <= k < |x| && DomainLabel(x[..k]) && DomainPrefix(x[k..]) {
      var k :| 2 <= k < |x| && DomainLabel(x[..k]) && DomainPrefix(x[k..]);
      DomainPrefixIsLabel(x[k..]);
      assert DomainLabel(x[k..]);
      forall i | 0 <= i < |x| - 1 ensures IsDomainChar(x[i]) {
        if i < k { assert x[i] == x[..k][i]; } else { assert x[i] == x[k..][i - k]; }
      }
      assert x[|x| - 1] == x[k..][|x| - k - 1];
    }
  }

  /** Every character of an address is a user character or the '@', and it ends in a TLD letter. */
  lemma AddressChars(t: string)
    requires Address(t)
    ensures |t| >= 7
    ensures forall i :: 0 <= i < |t| ==> IsUserChar(t[i]) || t[i] == '@'
    ensures IsWordChar(t[|t| - 1])
  {
    var at: nat, m: nat :| AddressSplit(t, at, m);
    DomainPrefixIsLabel(t[at + 1..m]);
    forall i | 0 <= i < |t| ensures IsUserChar(t[i]) || t[i] == '@' {
      if i < at {
        assert t[i] == t[..at][i];
      } else if at < i < m - 1 {
        assert t[i] == t[at + 1..m][i - at - 1];
      } else if i == m - 1 {
        assert t[i] == t[at + 1..m][m - at - 2];
      } else if m <= i {
        assert t[i] == t[m..][i - m];
      }
    }
    assert t[|t| - 1] == t[m..][2];
  }

  lemma {:induction false} NameHasNameChars(x: string)
    requires Name(x)
    ensures NameChars(x)
    decreases |x|
  {
    if !NameWord(x) {
      var k, j :| 0 < k < j < |x| && NameWord(x[..k]) && |x[k..j]| > 0 && AllSpace(x[k..j]) && Name(x[j..]);
      NameHasNameChars(x[j..]);
      assert x[0] == x[..k][0];
      assert x[|x| - 1] == x[j..][|x| - j - 1];
      forall i | 0 <= i < |x| ensures IsNameChar(x[i]) || IsSpace(x[i]) {
        if i < k { assert x[i] == x[..k][i]; }
        else if i < j { assert x[i] == x[k..j][i - k]; }
        else { assert x[i] == x[j..][i - j]; }
      }
    }
  }

  lemma {:induction false} NameCharsIsName(x: string)
    requires NameChars(x)
    ensures Name(x)
    decreases |x|
  {
    if !NameWord(x) {
      // k: the end of the first word; j: the end of the space after it
      var k := RunEnd(x, 0, NameCls);
      assert k < |x| by {
        if k == |x| {
          forall i | 0 <= i < |x| ensures IsNameChar(x[i]) { assert InClass(x[i], NameCls); }
          assert false;
        }
      }
      assert k > 0 by { assert InClass(x[0], NameCls); }
      assert IsSpace(x[k]);
      var j := RunEnd(x, k, SpaceCls);
      assert !InClass(x[|x| - 1], SpaceCls);
      assert NameWord(x[..k]) by {
        forall i | 0 <= i < k ensures IsNameChar(x[..k][i]) { assert InClass(x[i], NameCls); }
      }
      assert AllSpace(x[k..j]) by {
        forall i | 0 <= i < j - k ensures IsSpace(x[k..j][i]) { assert InClass(x[k + i], SpaceCls); }
      }
      assert NameChars(x[j..]) by {
        forall i | 0 <= i < |x| - j ensures IsNameChar(x[j..][i]) || IsSpace(x[j..][i]) {
          assert x[j..][i] == x[j + i];
        }
        assert x[j..][|x| - j - 1] == x[|x| - 1];
      }
      NameCharsIsName(x[j..]);
    }
  }

  /** Name and NameChars describe the same strings. */
  lemma NameIffNameChars(x: string)
    ensures Name(x) <==> NameChars(x)
  {
    if Name(x) { NameHasNameChars(x); }
    if NameChars(x) { NameCharsIsName(x); }
  }
}
