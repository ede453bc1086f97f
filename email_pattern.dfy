/** The signup email check `/^\w+([\.-]?\w+)*@\w+([\.-]?\w+)*(\.\w{2,3})+$/`,
    written out as a recogniser, and a flat description of the strings it
    accepts. `\w` is an ASCII letter, digit or underscore. */
module EmailPattern {
  import opened Sequences

  predicate IsWordChar(c: char)
  {
    ('a' <= c <= 'z') || ('A' <= c <= 'Z') || ('0' <= c <= '9') || c == '_'
  }

  predicate IsSep(c: char)
  {
    c == '.' || c == '-'
  }

  /** `\w+([\.-]?\w+)*`: word characters and separators, starting with a word
      character, every separator followed by a word character. */
  predicate Segmented(s: string)
  {
    && |s| > 0 && IsWordChar(s[0])
    && (forall k :: 0 <= k < |s| ==> IsWordChar(s[k]) || IsSep(s[k]))
    && (forall k :: 0 <= k < |s| && IsSep(s[k]) ==> k + 1 < |s| && IsWordChar(s[k + 1]))
  }

  /** The string ends with `.` followed by exactly `n` word characters, and something precedes the dot. */
  predicate EndsWithTld(s: string, n: nat)
  {
    && |s| >= n + 2
    && s[|s| - n - 1] == '.'
    && (forall k :: |s| - n <= k < |s| ==> IsWordChar(s[k]))
  }

  /** The recogniser: a segmented local part, `@`, and a segmented domain that
      ends with one of the `(\.\w{2,3})+` groups. */
  predicate Matches(s: string)
  {
    var at := FirstOf(s, '@');
    && at < |s|
    && Segmented(s[..at])
    && Segmented(s[at + 1..])
    && (EndsWithTld(s[at + 1..], 2) || EndsWithTld(s[at + 1..], 3))
  }

  /** The accepted strings described character by character. */
  predicate Shape(s: string)
  {
    var at := FirstOf(s, '@');
    // exactly one '@'
    && at < |s| && (forall k :: at < k < |s| ==> s[k] != '@')
    // starts with a word character
    && IsWordChar(s[0])
    // nothing but word characters, separators and the '@'
    && (forall k :: 0 <= k < |s| ==> IsWordChar(s[k]) || IsSep(s[k]) || s[k] == '@')
    // every '.' or '-' is followed by a word character
    && (forall k :: 0 <= k < |s| && IsSep(s[k]) ==> k + 1 < |s| && IsWordChar(s[k + 1]))
    // the '@' is followed by a word character
    && at + 1 < |s| && IsWordChar(s[at + 1])
    // ends with '.' and two or three word characters
    && (EndsWithTld(s, 2) || EndsWithTld(s, 3))
  }

  lemma MatchesHasShape(s: string)
    requires Matches(s)
    ensures Shape(s)
  {
    var at := FirstOf(s, '@');
    var local, domain := s[..at], s[at + 1..];
    assert forall k :: 0 <= k < at ==> s[k] == local[k];
    assert forall k :: at < k < |s| ==> s[k] == domain[k - at - 1];
    assert at > 0;
    forall k | 0 <= k < |s| && IsSep(s[k]) ensures k + 1 < |s| && IsWordChar(s[k + 1]) {
      if k < at {
        assert IsSep(local[k]);
      } else {
        assert IsSep(domain[k - at - 1]);
      }
    }
    forall k | 0 <= k < |s| ensures IsWordChar(s[k]) || IsSep(s[k]) || s[k] == '@' {
      if k > at {
        assert domain[k - at - 1] == s[k];
      }
    }
    forall k | at < k < |s| ensures s[k] != '@' {
      assert domain[k - at - 1] == s[k];
    }
    if EndsWithTld(domain, 2) {
      assert EndsWithTld(s, 2);
    } else {
      assert EndsWithTld(s, 3);
    }
  }

  lemma ShapeMatches(s: string)
    requires Shape(s)
    ensures Matches(s)
  {
    var at := FirstOf(s, '@');
    var local, domain := s[..at], s[at + 1..];
    assert at > 0;
    assert forall k :: 0 <= k < at ==> s[k] == local[k];
    assert forall k :: at < k < |s| ==> s[k] == domain[k - at - 1];
    assert Segmented(local) by {
      forall k | 0 <= k < |local| && IsSep(local[k]) ensures k + 1 < |local| && IsWordChar(local[k + 1]) {
        assert IsSep(s[k]);
        assert s[k + 1] != '@';
      }
    }
    assert Segmented(domain) by {
      forall k | 0 <= k < |domain| ensures IsWordChar(domain[k]) || IsSep(domain[k]) {
        assert domain[k] == s[k + at + 1];
      }
      forall k | 0 <= k < |domain| && IsSep(domain[k]) ensures k + 1 < |domain| && IsWordChar(domain[k + 1]) {
        assert IsSep(s[k + at + 1]);
      }
    }
    var n := if EndsWithTld(s, 2) then 2 else 3;
    assert EndsWithTld(s, n);
    var dot := |s| - n - 1;
    assert dot != at;
    assert dot > at by {
      assert !IsWordChar(s[at]);
    }
    assert dot > at + 1;
    assert EndsWithTld(domain, n) by {
      assert domain[|domain| - n - 1] == s[dot];
      forall k | |domain| - n <= k < |domain| ensures IsWordChar(domain[k]) {
        assert domain[k] == s[k + at + 1];
      }
    }
  }

  /** The recogniser accepts exactly the strings of that description. */
  lemma MatchesIffShape(s: string)
    ensures Matches(s) <==> Shape(s)
  {
    if Matches(s) { MatchesHasShape(s); }
    if Shape(s) { ShapeMatches(s); }
  }

  /** Whatever else it holds, an address that does not end with `.` and two
      or three word characters is refused. */
  lemma WithoutTldRefused(s: string)
    requires !EndsWithTld(s, 2) && !EndsWithTld(s, 3)
    ensures !Matches(s)
  {
    MatchesIffShape(s);
  }

  /** A four-letter top-level domain is refused: the last group is `\.\w{2,3}`. */
  lemma FourLetterTldRefused()
    ensures !Matches("user@example.info")
  {
    var s := "user@example.info";
    assert s[|s| - 3] == 'n' && s[|s| - 4] == 'i';
    WithoutTldRefused(s);
  }

  /** An address whose only dot is in the local part is refused. */
  lemma DotlessDomainRefused()
    ensures !Matches("first.last@localhost")
  {
    var s := "first.last@localhost";
    assert s[|s| - 3] == 'o' && s[|s| - 4] == 'h';
    WithoutTldRefused(s);
  }
}
