/** Everything `json.loads` (`Json.Decode`) returns is well-formed: every number
    lexeme is one the scanner reads whole and converts, and every object is a
    dict with distinct keys. Together with `JsonEncode.DecodeEncode` this makes
    the well-formed values exactly the values the decoder can produce. */
module JsonWellFormed {
  import opened Wrappers
  import opened Json
  import JsonEncode

  // ---------------------------------------------------------------------------
  // Cutting the text right after the number the scanner read does not change
  // what it reads: no test that failed on a character past the cut can succeed
  // on the shorter text.
  // ---------------------------------------------------------------------------

  lemma {:induction false} DigitsEndCut(s: string, n: nat, i: nat)
    requires i <= n <= |s| && DigitsEnd(s, i) <= n
    ensures DigitsEnd(s[..n], i) == DigitsEnd(s, i)
    decreases n - i
  {
    var x := s[..n];
    if i < n {
      assert x[i] == s[i];
      if PyStr.IsDigit(s[i]) {
        DigitsEndCut(s, n, i + 1);
      }
    }
  }

  lemma IntegerEndCut(s: string, n: nat, i: nat)
    requires i <= n <= |s| && IntegerEnd(s, i) <= n
    ensures IntegerEnd(s[..n], i) == IntegerEnd(s, i)
  {
    var x := s[..n];
    if i < n {
      assert x[i] == s[i];
      if '1' <= s[i] <= '9' {
        DigitsEndCut(s, n, i + 1);
      }
    }
  }

  lemma FractionEndCut(s: string, n: nat, i: nat)
    requires i <= n <= |s| && FractionEnd(s, i) <= n
    ensures FractionEnd(s[..n], i) == FractionEnd(s, i)
  {
    var x := s[..n];
    if i + 1 < n {
      assert x[i] == s[i] && x[i + 1] == s[i + 1];
      if s[i] == '.' && PyStr.IsDigit(s[i + 1]) {
        DigitsEndCut(s, n, i + 2);
      }
    }
  }

  lemma ExponentEndCut(s: string, n: nat, i: nat)
    requires i <= n <= |s| && ExponentEnd(s, i) <= n
    ensures ExponentEnd(s[..n], i) == ExponentEnd(s, i)
  {
    var x := s[..n];
    if i + 1 < |s| && (s[i] == 'e' || s[i] == 'E') {
      var m := if i + 2 < |s| && (s[i + 1] == '+' || s[i + 1] == '-') then i + 2 else i + 1;
      if PyStr.IsDigit(s[m]) {
        assert m < n;
        assert x[i] == s[i] && x[i + 1] == s[i + 1] && x[m] == s[m];
        if m == i + 2 {
          assert x[i + 2] == s[i + 2];
        } else if i + 2 < n {
          assert x[i + 2] == s[i + 2];
        }
        DigitsEndCut(s, n, m + 1);
      } else if m < n {
        assert x[i] == s[i] && x[i + 1] == s[i + 1] && x[m] == s[m];
        if i + 2 < n {
          assert x[i + 2] == s[i + 2];
        }
      }
    } else if i + 1 < n {
      assert x[i] == s[i];
    }
  }

  lemma UnsignedEndCut(s: string, n: nat, i: nat)
    requires i <= n <= |s| && UnsignedEnd(s, i) <= n
    ensures UnsignedEnd(s[..n], i) == UnsignedEnd(s, i)
  {
    var a := IntegerEnd(s, i);
    if a == i {
      if i < n {
        assert s[..n][i] == s[i];
      }
      IntegerEndCut(s, n, i);
    } else {
      IntegerEndCut(s, n, i);
      FractionEndCut(s, n, a);
      ExponentEndCut(s, n, FractionEnd(s, a));
    }
  }

  lemma PrefixCut(s: string, n: nat, p: string)
    requires n <= |s| && |p| <= n
    ensures HasPrefix(s[..n], p) == HasPrefix(s, p)
  {
    assert s[..n][..|p|] == s[..|p|];
  }

  /** The lexeme the scanner cut out is read whole again. */
  lemma NumberLengthCut(s: string)
    ensures NumberLength(s[..NumberLength(s)]) == NumberLength(s)
  {
    var n := NumberLength(s);
    var x := s[..n];
    if n > 0 {
      assert x[0] == s[0];
      if s[0] == 'N' {
        PrefixCut(s, n, "NaN");
      } else if s[0] == 'I' {
        PrefixCut(s, n, "Infinity");
      } else if s[0] == '-' {
        if HasPrefix(s, "-Infinity") {
          PrefixCut(s, n, "-Infinity");
        } else {
          if |x| >= 9 {
            PrefixCut(s, n, "-Infinity");
          }
          UnsignedEndCut(s, n, 1);
        }
      } else {
        UnsignedEndCut(s, n, 0);
      }
    }
  }

  lemma NumberWellFormed(s: string)
    requires ParseNumber(s).Some?
    ensures JsonEncode.WellFormed(ParseNumber(s).value.0)
  {
    NumberLengthCut(s);
  }

  // ---------------------------------------------------------------------------
  // The scanner builds only well-formed values.
  // ---------------------------------------------------------------------------

  /** Every value stored in a dict after `d[k] = v` is `v` or was stored
      before. */
  lemma SetValues(ms: seq<Member>, k: string, v: Json)
    requires forall i :: 0 <= i < |ms| ==> JsonEncode.WellFormed(ms[i].value)
    requires JsonEncode.WellFormed(v)
    ensures var r := Set(ms, k, v);
      forall i :: 0 <= i < |r| ==> JsonEncode.WellFormed(r[i].value)
  {
    var r := Set(ms, k, v);
    forall i | 0 <= i < |r| ensures JsonEncode.WellFormed(r[i].value) {
      if i < |ms| && r[i] != Member(k, v) {
        assert r[i] == ms[i];
      }
    }
  }

  lemma {:induction false} ValueWellFormed(s: string)
    requires ParseValue(s).Some?
    ensures JsonEncode.WellFormed(ParseValue(s).value.0)
    decreases |s|, 0
  {
    if s[0] == '{' {
      ObjectWellFormed(SkipSpace(s[1..]));
    } else if s[0] == '[' {
      ArrayWellFormed(SkipSpace(s[1..]));
    } else if s[0] != '"' && s[0] != 'n' && s[0] != 't' && s[0] != 'f' {
      NumberWellFormed(s);
    }
  }

  lemma {:induction false} ArrayWellFormed(s: string)
    requires ParseArray(s).Some?
    ensures JsonEncode.WellFormed(ParseArray(s).value.0)
    decreases |s|, 2
  {
    if !(s != [] && s[0] == ']') {
      ElementsWellFormed(s);
    }
  }

  lemma {:induction false} ElementsWellFormed(s: string)
    requires ParseElements(s).Some?
    ensures var items := ParseElements(s).value.0;
      forall i :: 0 <= i < |items| ==> JsonEncode.WellFormed(items[i])
    decreases |s|, 1
  {
    ValueWellFormed(s);
    var (v, rest) := ParseValue(s).value;
    var t := SkipSpace(rest);
    if !(t != [] && t[0] == ']') {
      var u := SkipSpace(t[1..]);
      ElementsWellFormed(u);
      var vs := ParseElements(u).value.0;
      assert ParseElements(s).value.0 == [v] + vs;
    }
  }

  lemma {:induction false} ObjectWellFormed(s: string)
    requires ParseObject(s).Some?
    ensures JsonEncode.WellFormed(ParseObject(s).value.0)
    decreases |s|, 2
  {
    if !(s != [] && s[0] == '}') {
      MembersWellFormed(s, []);
    }
  }

  lemma {:induction false} MemberWellFormed(s: string)
    requires ParseMember(s).Some?
    ensures JsonEncode.WellFormed(ParseMember(s).value.1)
    decreases |s|, 0
  {
    var (key, afterKey) := ParseString(s[1..]).value;
    var t := SkipSpace(afterKey);
    ValueWellFormed(SkipSpace(t[1..]));
  }

  /** The members read into a dict whose keys are distinct and whose values are
      well-formed keep both properties. */
  lemma {:induction false} MembersWellFormed(s: string, acc: seq<Member>)
    requires DistinctKeys(acc)
    requires forall i :: 0 <= i < |acc| ==> JsonEncode.WellFormed(acc[i].value)
    requires ParseMembers(s, acc).Some?
    ensures var ms := ParseMembers(s, acc).value.0;
      DistinctKeys(ms) && forall i :: 0 <= i < |ms| ==> JsonEncode.WellFormed(ms[i].value)
    decreases |s|, 1
  {
    MemberWellFormed(s);
    var (key, v, rest) := ParseMember(s).value;
    var acc' := Set(acc, key, v);
    SetDistinct(acc, key, v);
    SetValues(acc, key, v);
    var u := SkipSpace(rest);
    if u != [] && u[0] == '}' {
      assert ParseMembers(s, acc).value.0 == acc';
    } else {
      var w := SkipSpace(u[1..]);
      assert ParseMembers(s, acc) == ParseMembers(w, acc');
      MembersWellFormed(w, acc');
    }
  }

  /** Every value `json.loads` returns is well-formed. */
  lemma DecodeWellFormed(text: string)
    requires Decode(text).Some?
    ensures JsonEncode.WellFormed(Decode(text).value)
  {
    ValueWellFormed(SkipSpace(text));
  }
}
