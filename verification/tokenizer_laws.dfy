/**
 Properties of the tokenizer: which inputs fail and with what, how digit runs
 and variable names become single lexemes, that leading spaces are insignificant, and
 that decimal digits read back the number they print.
 */
module TokenizerLaws {
  import opened Errors
  import opened Lexemes
  import opened Tokenizer

  /** A character outside the accepted set anywhere in the input makes tokenizing fail. */
  lemma {:induction false} UnrecognizedFails(s: string, vars: Variables, k: nat)
    requires k < |s| && !Recognized(s[k])
    ensures ParseExpression(s, vars).Failure?
    decreases |s|
  {
    var c := s[0];
    if k == 0 {
    } else if IsPunctuation(c) || c == ' ' {
      UnrecognizedFails(s[1..], vars, k - 1);
    } else if IsDigit(c) {
      var n := DigitRun(s);
      assert n <= k;
      UnrecognizedFails(s[n..], vars, k - n);
    } else if IsLetter(c) {
      var n := 1 + NameTailRun(s[1..]);
      if s[..n] in vars {
        assert n <= k;
        UnrecognizedFails(s[n..], vars, k - n);
      }
    }
  }

  /** Cutting text just before a non-digit leaves its leading digit run unchanged. */
  lemma DigitRunPrefix(s: string, k: nat)
    requires k < |s| && !IsDigit(s[k])
    ensures DigitRun(s[..k]) == DigitRun(s)
  {
    var t := s[..k];
    var m, n := DigitRun(t), DigitRun(s);
    assert forall j :: 0 <= j < k ==> t[j] == s[j];
    assert !IsDigit(s[m]);
  }

  /** Cutting text just before a character that cannot continue a name leaves its leading name tail unchanged. */
  lemma NameTailPrefix(s: string, k: nat)
    requires k < |s| && !IsNameTail(s[k])
    ensures NameTailRun(s[..k]) == NameTailRun(s)
  {
    var t := s[..k];
    var m, n := NameTailRun(t), NameTailRun(s);
    assert forall j :: 0 <= j < k ==> t[j] == s[j];
    assert !IsNameTail(s[m]);
  }

  lemma PunctuationPrefixStep(s: string, vars: Variables, k: nat)
    requires 0 < k < |s| && (IsPunctuation(s[0]) || s[0] == ' ') && Scan(s[..k], vars).Success?
    ensures Scan(s[1..][..k - 1], vars).Success?
    ensures Scan(s[1..], vars).Failure? ==> Scan(s, vars) == Scan(s[1..], vars)
  {
    var t := s[..k];
    assert t[0] == s[0] && t[1..] == s[1..][..k - 1];
  }

  lemma DigitPrefixStep(s: string, vars: Variables, k: nat)
    requires 0 < k < |s| && IsDigit(s[0]) && !IsDigit(s[k]) && Scan(s[..k], vars).Success?
    ensures var n := DigitRun(s);
            n <= k && Scan(s[n..][..k - n], vars).Success? &&
            (Scan(s[n..], vars).Failure? ==> Scan(s, vars) == Scan(s[n..], vars))
  {
    var t := s[..k];
    var n := DigitRun(s);
    DigitRunPrefix(s, k);
    assert t[0] == s[0] && t[n..] == s[n..][..k - n];
  }

  lemma NamePrefixStep(s: string, vars: Variables, k: nat)
    requires 0 < k < |s| && IsLetter(s[0]) && !IsNameTail(s[k]) && Scan(s[..k], vars).Success?
    ensures var n := 1 + NameTailRun(s[1..]);
            n <= k && Scan(s[n..][..k - n], vars).Success? &&
            (Scan(s[n..], vars).Failure? ==> Scan(s, vars) == Scan(s[n..], vars))
  {
    var t := s[..k];
    var n := 1 + NameTailRun(s[1..]);
    NameTailPrefix(s[1..], k - 1);
    assert t[0] == s[0] && t[1..] == s[1..][..k - 1];
    assert t[..n] == s[..n] && t[n..] == s[n..][..k - n];
  }

  /**
   The first character outside the accepted set is the one reported: when the
   text before it tokenizes, tokenizing the whole fails with UnexpectedSymbol
   of that character.
   */
  lemma {:induction false} FirstUnrecognized(s: string, vars: Variables, k: nat)
    requires k < |s| && !Recognized(s[k])
    requires Scan(s[..k], vars).Success?
    ensures Scan(s, vars) == Failure(UnexpectedSymbol(s[k]))
    decreases |s|
  {
    var c := s[0];
    if k == 0 {
    } else if IsPunctuation(c) || c == ' ' {
      PunctuationPrefixStep(s, vars, k);
      FirstUnrecognized(s[1..], vars, k - 1);
    } else if IsDigit(c) {
      DigitPrefixStep(s, vars, k);
      var n := DigitRun(s);
      FirstUnrecognized(s[n..], vars, k - n);
    } else if IsLetter(c) {
      NamePrefixStep(s, vars, k);
      var n := 1 + NameTailRun(s[1..]);
      FirstUnrecognized(s[n..], vars, k - n);
    } else {
      assert false;
    }
  }

  lemma ShiftOccurrence(s: string, n: nat, j: nat, name: string)
    requires n <= |s| && j + |name| <= |s| - n && s[n..][j..j + |name|] == name
    ensures s[n + j..n + j + |name|] == name
  {
    assert s[n..][j..j + |name|] == s[n + j..n + j + |name|];
  }

  /** Unless the text starts with an unknown name, its error is the error of the text after its first lexeme. */
  lemma UnknownInRest(s: string, vars: Variables) returns (n: nat)
    requires Scan(s, vars).Failure? && Scan(s, vars).error.UnknownVariable?
    requires |s| > 0 && !(IsLetter(s[0]) && s[..1 + NameTailRun(s[1..])] !in vars)
    ensures 0 < n <= |s| && Scan(s[n..], vars) == Scan(s, vars)
  {
    var c := s[0];
    if IsPunctuation(c) || c == ' ' {
      n := 1;
    } else if IsDigit(c) {
      n := DigitRun(s);
    } else {
      n := 1 + NameTailRun(s[1..]);
    }
  }

  /** An unknown variable that tokenizing reports is written in the text, at the returned index. */
  lemma {:induction false} UnknownNameOccurs(s: string, vars: Variables) returns (k: nat)
    requires Scan(s, vars).Failure? && Scan(s, vars).error.UnknownVariable?
    ensures var name := Scan(s, vars).error.name;
            k + |name| <= |s| && s[k..k + |name|] == name
    decreases |s|
  {
    var name := Scan(s, vars).error.name;
    var m := 1 + NameTailRun(s[1..]);
    if IsLetter(s[0]) && s[..m] !in vars {
      k := 0;
    } else {
      var n := UnknownInRest(s, vars);
      var j := UnknownNameOccurs(s[n..], vars);
      ShiftOccurrence(s, n, j, name);
      k := n + j;
    }
  }

  /** Digits, operators, brackets and spaces alone always tokenize, whatever the variables. */
  lemma {:induction false} NoLettersSucceeds(s: string, vars: Variables)
    requires forall k :: 0 <= k < |s| ==> Recognized(s[k]) && !IsLetter(s[k])
    ensures ParseExpression(s, vars).Success?
    decreases |s|
  {
    if |s| > 0 {
      var c := s[0];
      if IsDigit(c) {
        var n := DigitRun(s);
        NoLettersSucceeds(s[n..], vars);
      } else {
        NoLettersSucceeds(s[1..], vars);
      }
    }
  }

  predicate AllSpaces(s: string) {
    forall k :: 0 <= k < |s| ==> s[k] == ' '
  }

  /** Spaces in front of an expression change nothing. */
  lemma {:induction false} LeadingSpacesIgnored(spaces: string, s: string, vars: Variables)
    requires AllSpaces(spaces)
    ensures Scan(spaces + s, vars) == Scan(s, vars)
    ensures ParseExpression(spaces + s, vars) == ParseExpression(s, vars)
    decreases |spaces|
  {
    if |spaces| > 0 {
      var t := spaces + s;
      assert t[0] == ' ';
      assert t[1..] == spaces[1..] + s;
      LeadingSpacesIgnored(spaces[1..], s, vars);
      assert Scan(t, vars) == Scan(t[1..], vars);
    } else {
      assert spaces + s == s;
    }
  }

  /** An empty or blank input is the sentinel alone. */
  lemma BlankInput(s: string, vars: Variables)
    requires AllSpaces(s)
    ensures ParseExpression(s, vars) == Success([Eoe])
  {
    LeadingSpacesIgnored(s, "", vars);
    assert s + "" == s;
    assert Scan("", vars) == Success([]);
    assert [] + [Eoe] == [Eoe];
  }

  /** A maximal run of digits becomes exactly one number lexeme carrying the run's value. */
  lemma DigitRunIsOneNumber(digits: string, rest: string, vars: Variables)
    requires |digits| > 0 && forall k :: 0 <= k < |digits| ==> IsDigit(digits[k])
    requires rest == [] || !IsDigit(rest[0])
    ensures Scan(digits + rest, vars) ==
            match Scan(rest, vars)
            case Success(ls) => Success([Number(DigitsValue(digits) as real)] + ls)
            case Failure(e) => Failure(e)
  {
    var s := digits + rest;
    var n := DigitRun(s);
    assert IsDigit(s[0]);
    assert forall k :: 0 <= k < |digits| ==> s[k] == digits[k];
    assert |digits| < |s| ==> s[|digits|] == rest[0];
    assert n == |digits|;
    assert s[..n] == digits;
    assert s[n..] == rest;
  }

  /**
   A letter followed by a maximal run of 'a'/'b' is read as one variable name:
   unknown names fail, known ones become a number lexeme with the mapped value.
   */
  lemma VariableIsOneNumber(name: string, rest: string, vars: Variables)
    requires IsScannedName(name)
    requires rest == [] || !IsNameTail(rest[0])
    ensures name !in vars ==> Scan(name + rest, vars) == Failure(UnknownVariable(name))
    ensures name in vars ==>
            Scan(name + rest, vars) ==
            match Scan(rest, vars)
            case Success(ls) => Success([Number(vars[name])] + ls)
            case Failure(e) => Failure(e)
  {
    var s := name + rest;
    var t := s[1..];
    var m := NameTailRun(t);
    assert IsLetter(s[0]) && !IsDigit(s[0]) && !IsPunctuation(s[0]);
    assert forall k :: 0 <= k < |name| - 1 ==> t[k] == name[k + 1];
    assert |name| - 1 < |t| ==> t[|name| - 1] == rest[0];
    assert m == |name| - 1;
    assert s[..1 + m] == name;
    assert s[1 + m..] == rest;
  }

  /** Decimal digits of a natural number, most significant first. */
  function NatToDigits(n: nat): (d: string)
    ensures |d| > 0 && forall k :: 0 <= k < |d| ==> IsDigit(d[k])
  {
    var last := (('0' as int) + n % 10) as char;
    if n < 10 then [last] else NatToDigits(n / 10) + [last]
  }

  lemma {:induction false} DigitsRoundTrip(n: nat)
    ensures DigitsValue(NatToDigits(n)) == n
  {
    var d := NatToDigits(n);
    if n >= 10 {
      DigitsRoundTrip(n / 10);
      assert d[..|d| - 1] == NatToDigits(n / 10);
    }
  }

  /** A leading zero does not change the value of a digit run, as Double.parseDouble reads it. */
  lemma {:induction false} LeadingZeroIgnored(d: string)
    requires forall k :: 0 <= k < |d| ==> IsDigit(d[k])
    ensures DigitsValue("0" + d) == DigitsValue(d)
    decreases |d|
  {
    var z := "0" + d;
    if |d| > 0 {
      LeadingZeroIgnored(d[..|d| - 1]);
      assert z[..|z| - 1] == "0" + d[..|d| - 1];
      assert z[|z| - 1] == d[|d| - 1];
    }
  }

  /** A piece of text may be cut before it when it is empty or starts with a space, bracket or operator. */
  predicate Separates(b: string) {
    b == [] || b[0] == ' ' || IsPunctuation(b[0])
  }

  /** Two tokenizer results one after the other: the first failure, or both lexeme lists in order. */
  function Join(x: Result<seq<Lexeme>>, y: Result<seq<Lexeme>>): (r: Result<seq<Lexeme>>)
    ensures r.Success? <==> x.Success? && y.Success?
    ensures r.Success? ==> r.value == x.value + y.value
    ensures x.Failure? ==> r == x
  {
    var first :- x;
    var second :- y;
    Success(first + second)
  }

  lemma DigitRunAppend(a: string, b: string)
    requires Separates(b)
    ensures DigitRun(a + b) == DigitRun(a)
  {
    var s := a + b;
    var m, n := DigitRun(a), DigitRun(s);
    assert forall k :: 0 <= k < |a| ==> s[k] == a[k];
    assert m < |s| ==> !IsDigit(s[m]);
  }

  lemma NameTailRunAppend(a: string, b: string)
    requires Separates(b)
    ensures NameTailRun(a + b) == NameTailRun(a)
  {
    var s := a + b;
    var m, n := NameTailRun(a), NameTailRun(s);
    assert forall k :: 0 <= k < |a| ==> s[k] == a[k];
    assert m < |s| ==> !IsNameTail(s[m]);
  }

  /** A lexeme put in front of a tokenizer result, which a failure absorbs. */
  function Prepend(l: Lexeme, x: Result<seq<Lexeme>>): (r: Result<seq<Lexeme>>)
    ensures r.Success? <==> x.Success?
    ensures r.Success? ==> r.value == [l] + x.value
  {
    var rest :- x;
    Success([l] + rest)
  }

  lemma JoinPrepend(l: Lexeme, x: Result<seq<Lexeme>>, y: Result<seq<Lexeme>>)
    ensures Join(Prepend(l, x), y) == Prepend(l, Join(x, y))
  {
    if x.Success? && y.Success? {
      assert [l] + x.value + y.value == [l] + (x.value + y.value);
    }
  }

  lemma PunctuationAppend(a: string, b: string, vars: Variables)
    requires |a| > 0 && IsPunctuation(a[0]) && Separates(b)
    requires Scan(a[1..] + b, vars) == Join(Scan(a[1..], vars), Scan(b, vars))
    ensures Scan(a + b, vars) == Join(Scan(a, vars), Scan(b, vars))
  {
    var s := a + b;
    var l := PunctuationLexeme(a[0]);
    assert s[0] == a[0] && s[1..] == a[1..] + b;
    assert Scan(a, vars) == Prepend(l, Scan(a[1..], vars));
    assert Scan(s, vars) == Prepend(l, Scan(s[1..], vars));
    JoinPrepend(l, Scan(a[1..], vars), Scan(b, vars));
  }

  lemma SliceAppend(a: string, b: string, m: nat)
    requires m <= |a|
    ensures (a + b)[..m] == a[..m] && (a + b)[m..] == a[m..] + b
  {
  }

  /** One step of the tokenizer on text that starts with a digit. */
  lemma ScanDigitsStep(s: string, vars: Variables)
    requires |s| > 0 && IsDigit(s[0])
    ensures var m := DigitRun(s);
            Scan(s, vars) == Prepend(Number(DigitsValue(s[..m]) as real), Scan(s[m..], vars))
  {
  }

  /** One step of the tokenizer on text that starts with a known variable name. */
  lemma ScanNameStep(s: string, vars: Variables)
    requires |s| > 0 && IsLetter(s[0])
    ensures var n := 1 + NameTailRun(s[1..]);
            Scan(s, vars) == if s[..n] in vars then Prepend(Number(vars[s[..n]]), Scan(s[n..], vars))
                             else Failure(UnknownVariable(s[..n]))
  {
  }

  lemma DigitsAppend(a: string, b: string, vars: Variables)
    requires |a| > 0 && IsDigit(a[0]) && Separates(b)
    requires var m := DigitRun(a); Scan(a[m..] + b, vars) == Join(Scan(a[m..], vars), Scan(b, vars))
    ensures Scan(a + b, vars) == Join(Scan(a, vars), Scan(b, vars))
  {
    var m := DigitRun(a);
    DigitRunAppend(a, b);
    SliceAppend(a, b, m);
    assert (a + b)[0] == a[0];
    ScanDigitsStep(a, vars);
    ScanDigitsStep(a + b, vars);
    JoinPrepend(Number(DigitsValue(a[..m]) as real), Scan(a[m..], vars), Scan(b, vars));
  }

  lemma NameAppend(a: string, b: string, vars: Variables)
    requires |a| > 0 && IsLetter(a[0]) && Separates(b)
    requires var n := 1 + NameTailRun(a[1..]);
             a[..n] in vars ==> Scan(a[n..] + b, vars) == Join(Scan(a[n..], vars), Scan(b, vars))
    ensures Scan(a + b, vars) == Join(Scan(a, vars), Scan(b, vars))
  {
    SliceAppend(a, b, 1);
    NameTailRunAppend(a[1..], b);
    var n := 1 + NameTailRun(a[1..]);
    SliceAppend(a, b, n);
    assert (a + b)[0] == a[0];
    ScanNameStep(a, vars);
    ScanNameStep(a + b, vars);
    if a[..n] in vars {
      JoinPrepend(Number(vars[a[..n]]), Scan(a[n..], vars), Scan(b, vars));
    }
  }

  /**
   Text cut before a space, bracket or operator tokenizes piece by piece: no
   lexeme spans the cut, and the first piece's error, if any, comes first.
   */
  lemma {:induction false} ScanAppend(a: string, b: string, vars: Variables)
    requires Separates(b)
    ensures Scan(a + b, vars) == Join(Scan(a, vars), Scan(b, vars))
    decreases |a|
  {
    var s := a + b;
    if |a| == 0 {
      assert s == b;
      assert Scan(b, vars).Success? ==> [] + Scan(b, vars).value == Scan(b, vars).value;
    } else {
      var c := a[0];
      assert s[0] == c;
      if IsPunctuation(c) {
        ScanAppend(a[1..], b, vars);
        PunctuationAppend(a, b, vars);
      } else if IsDigit(c) {
        ScanAppend(a[DigitRun(a)..], b, vars);
        DigitsAppend(a, b, vars);
      } else if IsLetter(c) {
        var n := 1 + NameTailRun(a[1..]);
        if a[..n] in vars {
          ScanAppend(a[n..], b, vars);
        }
        NameAppend(a, b, vars);
      } else if c == ' ' {
        assert s[1..] == a[1..] + b;
        ScanAppend(a[1..], b, vars);
      }
    }
  }
}
