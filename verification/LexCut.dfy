/** Texts that break off: what the lexemes of a text become when it is cut at any character. */
module LexCut {
  import opened Errors
  import opened Json
  import opened Lexer

  // --------------------------------------------------------------------- numbers

  lemma {:induction false} DigitsOfPrefix(t: string, m: nat)
    requires m <= |t|
    ensures DigitsLen(t[..m]) == if m < DigitsLen(t) then m else DigitsLen(t)
  {
    if m > 0 && '0' <= t[0] <= '9' {
      DigitsOfPrefix(t[1..], m - 1);
      assert t[..m][1..] == t[1..][..m - 1];
    }
  }

  lemma {:induction false} DigitsStop(t: string, u: string)
    requires DigitsLen(t) < |t|
    ensures DigitsLen(t + u) == DigitsLen(t)
  {
    if '0' <= t[0] <= '9' {
      DigitsStop(t[1..], u);
      assert (t + u)[1..] == t[1..] + u;
    }
  }

  lemma {:induction false} OneZero()
    ensures DigitsLen("0") == 1 && IsExponent("") && IsFraction("") && IsNumber("0")
  {
    assert "0"[1..] == "";
  }

  lemma {:induction false} ExponentPrefix(t: string, m: nat)
    requires IsExponent(t) && m <= |t|
    ensures IsExponent(t[..m]) || IsExponent(t[..m] + "0")
  {
    if m > 0 {
      var off := if |t| > 1 && (t[1] == '+' || t[1] == '-') then 2 else 1;
      var d := t[off..];
      if m > off {
        assert t[..m][off..] == d[..m - off];
        DigitsOfPrefix(d, m - off);
      } else {
        OneZero();
        assert (t[..m] + "0")[m..] == "0";
        assert m == 2 ==> (t[..m] + "0")[1] == t[1];
      }
    }
  }

  lemma {:induction false} FractionPrefix(t: string, m: nat)
    requires IsFraction(t) && m <= |t|
    ensures IsFraction(t[..m]) || IsFraction(t[..m] + "0")
  {
    hide IsExponent;
    OneZero();
    if m > 0 && t[0] == '.' {
      var u, p := t[1..], m - 1;
      var n := DigitsLen(u);
      DigitsOfPrefix(u, p);
      assert t[..m][1..] == u[..p];
      assert (t[..m] + "0")[1..] == u[..p] + "0";
      if p == 0 {
        assert u[..p] + "0" == "0" && "0"[1..] == "";
      } else if p <= n {
        assert u[..p][p..] == "";
      } else {
        ExponentPrefix(u[n..], p - n);
        DigitsStop(u[..p], "0");
        assert u[..p][n..] == u[n..][..p - n];
        assert (u[..p] + "0")[n..] == u[n..][..p - n] + "0";
      }
    } else if m > 0 {
      ExponentPrefix(t, m);
    }
  }

  lemma {:induction false} UnsignedPrefix(u: string, p: nat)
    requires 0 < p <= |u| && DigitsLen(u) > 0 && (u[0] == '0' ==> DigitsLen(u) == 1) && IsFraction(u[DigitsLen(u)..])
    ensures var a, b := u[..p], u[..p] + "0";
            DigitsLen(a) > 0 && a[0] == u[0] == b[0] && (a[0] == '0' ==> DigitsLen(a) == 1) &&
            (IsFraction(a[DigitsLen(a)..]) ||
             (DigitsLen(b) == DigitsLen(a) && IsFraction(b[DigitsLen(b)..])))
  {
    hide IsFraction;
    var n := DigitsLen(u);
    DigitsOfPrefix(u, p);
    if p <= n {
      OneZero();
      assert u[..p][p..] == "";
    } else {
      FractionPrefix(u[n..], p - n);
      DigitsStop(u[..p], "0");
      assert u[..p][n..] == u[n..][..p - n];
      assert (u[..p] + "0")[n..] == u[n..][..p - n] + "0";
    }
  }

  /** What is left of a number is a number, or lacks a digit. */
  lemma {:induction false} NumberPrefix(t: string, m: nat)
    requires IsNumber(t) && 0 < m <= |t|
    ensures IsNumber(t[..m]) || IsNumber(t[..m] + "0")
  {
    hide IsFraction, DigitsLen;
    var s := if t[0] == '-' then 1 else 0;
    var a, b := t[..m], t[..m] + "0";
    if m > s {
      var u := t[s..];
      UnsignedPrefix(u, m - s);
      assert a[s..] == u[..m - s] && b[s..] == u[..m - s] + "0";
    } else {
      OneZero();
      assert b == "-0" && b[1..] == "0" && "0"[1..] == "";
    }
  }

  // --------------------------------------------------------------------- strings

  lemma {:induction false} PiecePrefix(t: string, m: nat)
    requires t != "" && PieceAt(t).Some? && 0 < m < PieceAt(t).value.len
    ensures PieceAt(t[..m]).None? && EscapeCut(t[..m]) && t[0] != '\"'
  {
    assert forall i :: 0 <= i < m ==> t[..m][i] == t[i];
  }

  lemma {:induction false} CutBehind(t: string, n: nat, m: nat)
    requires n <= m <= |t|
    ensures t[..n] + t[n..m] == t[..m] && t[..m][n..] == t[n..m] == t[n..][..m - n]
  {
  }

  lemma {:induction false} StringPrefix(t: string, m: nat)
    requires StrBody(t).Some? && m < StrBody(t).value.len
    ensures StrBody(t[..m]).None? && StrCut(t[..m])
    decreases |t|
  {
    hide PieceAt, EscapeCut;
    if m > 0 {
      var p := PieceAt(t).value;
      assert t[..m][0] == t[0];
      if m < p.len {
        PiecePrefix(t, m);
      } else {
        PieceLocal(t, t[p.len..m]);
        CutBehind(t, p.len, m);
        StringPrefix(t[p.len..], m - p.len);
      }
    }
  }

  // --------------------------------------------------------------------- lexemes

  lemma {:induction false} LitLenPrefix(t: string, m: nat)
    requires m <= LitLen(t)
    ensures LitLen(t[..m]) == m
  {
    if m > 0 {
      LitLenPrefix(t[1..], m - 1);
      assert t[..m][1..] == t[1..][..m - 1];
    }
  }

  lemma {:induction false} NumberHead(t: string)
    requires IsNumber(t)
    ensures t[0] == '-' || '0' <= t[0] <= '9'
  {
  }

  /** What is left of a name or number. */
  lemma {:induction false} NamePrefix(t: string, m: nat)
    requires LitKind(t) != Bad && 0 < m < |t|
    ensures var k := LitKind(t[..m]);
            if k == Bad then LitCut(t[..m]) else k.Num? && LitKind(t).Num?
  {
    hide IsNumber;
    var u := t[..m];
    assert u[0] == t[0];
    if IsNumber(u) {
      NumberHead(u);
    }
    if IsNumber(t) {
      NumberHead(t);
      NumberPrefix(t, m);
    } else {
      assert u <= t;
    }
  }

  lemma {:induction false} LexHerePrefix(t: string, m: nat)
    requires t != "" && !IsSpace(t[0]) && Whole(LexHere(t).kind) && 0 < m < LexHere(t).len
    ensures var l := LexHere(t[..m]); l.len == m && IsStump(l.kind, LexHere(t).kind)
  {
    hide StrBody, StrCut, LitKind, LitCut;
    var u := t[..m];
    assert u[0] == t[0];
    if t[0] == '\"' {
      StringPrefix(t[1..], m - 1);
      assert u[1..] == t[1..][..m - 1];
    } else if IsLit(t[0]) {
      var n := LitLen(t);
      LitLenPrefix(t, m);
      NamePrefix(t[..n], m);
      assert t[..n][..m] == u && u[..m] == u;
      LitStump(t[..n], u);
    }
  }

  lemma {:induction false} LitStump(t: string, u: string)
    requires LitKind(t) != Bad && (LitKind(u) != Bad ==> LitKind(u).Num? && LitKind(t).Num?)
    ensures IsStump(if LitKind(u) != Bad then LitKind(u) else Cut(false), LitKind(t))
  {
  }

  lemma {:induction false} BrokenOffCons(k: Kind, part: Kinds, ks: Kinds)
    requires BrokenOff(part, ks)
    ensures BrokenOff([k] + part, [k] + ks)
  {
    hide IsStump;
    if part <= ks && part != ks {
      assert ([k] + part)[1..] == part && ([k] + ks)[1..] == ks;
    } else {
      var n := |part| - 1;
      assert ([k] + part)[..n + 1] == [k] + part[..n] && ([k] + ks)[..n + 1] == [k] + ks[..n];
    }
  }

  lemma {:induction false} SpacePrefix(t: string, m: nat)
    requires m <= SpaceLen(t)
    ensures SpaceLen(t[..m]) == m && KindsOf(t[..m]) == []
  {
    if m > 0 {
      SpacePrefix(t[1..], m - 1);
      assert t[..m][1..] == t[1..][..m - 1];
    }
  }

  /** The text is cut inside its first lexeme. */
  lemma {:induction false} CutInFirst(t: string, m: nat)
    requires LexOne(t).Some? && Whole(LexOne(t).value.kind) && m < LexOne(t).value.len
    ensures BrokenOff(KindsOf(t[..m]), KindsOf(t))
  {
    hide LexHere, IsStump;
    var n, l := SpaceLen(t), LexOne(t).value;
    var u := t[..m];
    if m <= n {
      SpacePrefix(t, m);
    } else {
      SpaceLenLocal(t, m, "");
      assert u + "" == u && u[n..] == t[n..][..m - n];
      LexHerePrefix(t[n..], m - n);
      var x := LexHere(u[n..]).kind;
      assert LexOne(u) == Some(Lexeme(x, m));
      assert u[m..] == "";
      LexEmpty();
      assert KindsOf(u) == [x];
      assert KindsOf(t)[0] == l.kind;
    }
  }

  /** A text without bad lexemes, cut at any character. */
  lemma {:induction false} KindsOfPrefix(t: string, m: nat)
    requires AllWhole(KindsOf(t)) && m <= |t|
    ensures KindsOf(t[..m]) == KindsOf(t) || BrokenOff(KindsOf(t[..m]), KindsOf(t))
    decreases |t|
  {
    hide LexOne, BrokenOff;
    match LexOne(t)
    case None =>
      NoLexeme(t);
      SpacePrefix(t, m);
    case Some(l) =>
      var ks := KindsOf(t[l.len..]);
      assert KindsOf(t) == [l.kind] + ks;
      AllWholeCons(l.kind, ks);
      if m < l.len {
        CutInFirst(t, m);
      } else {
        var u := t[l.len..m];
        CutBehind(t, l.len, m);
        LexLocal(t, u);
        KindsOfPrefix(t[l.len..], m - l.len);
        if KindsOf(u) != ks {
          BrokenOffCons(l.kind, KindsOf(u), ks);
        }
      }
  }
}
