/** Where the text of a sequence ID comes from (seqid.go). */
module Sequences {
  import opened Errors
  import opened Json
  import opened Lexer
  import opened Decoding
  import opened Members
  import opened Metadata
  import RewriterTheorems

  /** `s` is the source text of a value in `t`, as it stands there, stripped of quotes. */
  ghost predicate Written(t: string, v: Value, s: string) {
    exists before, raw, after :: t == before + raw + after && IsSource(raw, v) && IsTrimmed(s, raw)
  }

  predicate IsSource(raw: string, v: Value) {
    raw != "" && !IsSpace(raw[0]) && KindsOf(raw) == Flatten(v)
  }

  /** From one moment to another the sequence ID has stayed, or has been read from `t` in between. */
  ghost predicate SequenceFrom(t: string, m: Meta, s: string, m': Meta, s': string) {
    (SequenceOf(m') == SequenceOf(m) && s' == s) ||
    (SequenceOf(m').Some? && Written(t, SequenceOf(m').value, s'))
  }

  lemma {:induction false} WrittenInSuffix(u: string, t: string, v: Value, s: string)
    requires Suffix(u, t) && Written(u, v, s)
    ensures Written(t, v, s)
  {
    hide IsSource, IsTrimmed;
    var before, raw, after :| u == before + raw + after && IsSource(raw, v) && IsTrimmed(s, raw);
    var skipped := t[..|t| - |u|];
    assert t == skipped + u;
    assert t == (skipped + before) + raw + after;
  }

  lemma {:induction false} NothingYet(t: string, m: Meta, s: string)
    ensures SequenceFrom(t, m, s, m, s) && Suffix(t, t)
  {
  }

  /** One step further: `u` was left of `t`, and now `w` is left of `u`. */
  lemma {:induction false} SequenceLater(
      t: string, u: string, w: string, m0: Meta, s0: string, m1: Meta, s1: string, m2: Meta, s2: string)
    requires SequenceFrom(t, m0, s0, m1, s1) && Suffix(u, t)
    requires SequenceFrom(u, m1, s1, m2, s2) && Suffix(w, u)
    ensures SequenceFrom(t, m0, s0, m2, s2) && Suffix(w, t)
  {
    hide Written, Suffix;
    SuffixTransitive(w, u, t);
    if SequenceOf(m2).Some? && Written(u, SequenceOf(m2).value, s2) {
      WrittenInSuffix(u, t, SequenceOf(m2).value, s2);
    }
  }

  /** What Decode consumes: at most a separator, and the value. */
  lemma {:induction false} DecodeConsumes(d: Dec) returns (sep: Kinds)
    requires DecodeStep(d).res.Ok?
    ensures d.rest == sep + Flatten(DecodeStep(d).res.value) + DecodeStep(d).dec.rest
    ensures sep == [] || sep == [Comma] || sep == [Colon]
  {
    hide ScanValue;
    var d' := Prepare(d).value;
    ScanSound(d'.rest);
    sep := if |d'.rest| < |d.rest| then [d.rest[0]] else [];
    assert d.rest == sep + d'.rest;
  }

  /** The raw text that comes with a value is its source. */
  lemma {:induction false} RawIsSource(d: Dec, t: string)
    requires d.rest == KindsAt(t, d.end) && DecodeStep(d).res.Ok?
    ensures var s := DecodeStep(d);
            var left := After(t, |d.rest| - |s.dec.rest|);
            IsSource(RawValue(Consumed(t, left)), s.res.value) &&
            Written(t, s.res.value, SequenceID(RawValue(Consumed(t, left))))
  {
    hide KindsOf, KindsAt, After, DecodeStep, Flatten, TrimSpace, IsTrimmed;
    var s := DecodeStep(d);
    var v := s.res.value;
    var sep := DecodeConsumes(d);
    var j := |sep| + |Flatten(v)|;
    assert d.rest[..j] == sep + Flatten(v);
    WholeValue(sep, v);
    KindsAtWhole(t, d.end, j);
    KindsBefore(t, j);
    var left := After(t, j);
    var c := Consumed(t, left);
    RawLexes(c, sep, v);
    AfterIsSuffix(t, j);
    var raw := RawValue(c);
    RawIsSuffix(c);
    TrimTrims(raw);
    assert t == c[..|c| - |raw|] + raw + left;
  }

  lemma {:induction false} WholeValue(sep: Kinds, v: Value)
    requires sep == [] || sep == [Comma] || sep == [Colon]
    ensures AllWhole(sep + Flatten(v))
  {
    hide Flatten;
    RewriterTheorems.NothingBroken(v);
  }

  lemma {:induction false} RawLexes(c: string, sep: Kinds, v: Value)
    requires KindsOf(c) == sep + Flatten(v) && (sep == [] || sep == [Comma] || sep == [Colon])
    ensures IsSource(RawValue(c), v)
  {
    hide KindsOf, After, Flatten;
    var rest := if sep == [] then c else After(c, 1);
    FlattenHead(v);
    if sep == [] {
      assert KindsOf(c) == Flatten(v);
    } else {
      KindsAfter(c, 1);
      assert (sep + Flatten(v))[1..] == Flatten(v);
    }
    KindsOfTrimmed(rest);
    NoText();
  }

  lemma {:induction false} RawIsSuffix(c: string)
    ensures Suffix(RawValue(c), c)
  {
    hide KindsOf, After;
    AfterIsSuffix(c, 1);
  }
}
