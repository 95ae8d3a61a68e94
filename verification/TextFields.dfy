/** Splitting a text at a delimiter, and joining fields with one. */
module TextFields {
  import opened Common

  /** The fields between the occurrences of the delimiter. There is always at least one. */
  function Split(s: string, d: char): (fields: seq<string>)
    ensures fields != []
  {
    if s == "" then [""]
    else if s[0] == d then [""] + Split(s[1..], d)
    else var more := Split(s[1..], d); [[s[0]] + more[0]] + more[1..]
  }

  function Join(fields: seq<string>, d: char): string {
    if fields == [] then ""
    else if |fields| == 1 then fields[0]
    else fields[0] + [d] + Join(fields[1..], d)
  }

  /** `find`/`strchr`: the first occurrence of `d`. */
  function Find(s: string, d: char): (r: Option<nat>)
    ensures r.Some? ==> r.value < |s| && s[r.value] == d && d !in s[..r.value]
    ensures r.None? ==> d !in s
  {
    if s == "" then None
    else if s[0] == d then Some(0)
    else match Find(s[1..], d)
      case None => None
      case Some(k) => assert s[..k + 1] == [s[0]] + s[1..][..k]; Some(k + 1)
  }

  lemma {:induction false} SplitWhole(s: string, d: char)
    requires d !in s
    ensures Split(s, d) == [s]
    decreases |s|
  {
    if s != "" {
      SplitWhole(s[1..], d);
      assert [s[0]] + s[1..] == s;
    }
  }

  lemma {:induction false} SplitFirst(a: string, d: char, b: string)
    requires d !in a
    ensures Split(a + [d] + b, d) == [a] + Split(b, d)
    decreases |a|
  {
    var s := a + [d] + b;
    if a == "" {
      assert s[1..] == b;
    } else {
      assert s[1..] == a[1..] + [d] + b;
      SplitFirst(a[1..], d, b);
      assert [a[0]] + a[1..] == a;
    }
  }

  /** Joining the fields of a text gives the text back. */
  lemma {:induction false} JoinSplit(s: string, d: char)
    ensures Join(Split(s, d), d) == s
    decreases |s|
  {
    match Find(s, d)
    case None => SplitWhole(s, d);
    case Some(k) =>
      assert s == s[..k] + [d] + s[k + 1..];
      SplitFirst(s[..k], d, s[k + 1..]);
      JoinSplit(s[k + 1..], d);
      assert Split(s, d)[1..] == Split(s[k + 1..], d);
  }

  /** Splitting joined fields gives the fields back, when none of them contains the delimiter. */
  lemma {:induction false} SplitJoin(fields: seq<string>, d: char)
    requires fields != [] && forall i | 0 <= i < |fields| :: d !in fields[i]
    ensures Split(Join(fields, d), d) == fields
    decreases |fields|
  {
    if |fields| == 1 {
      SplitWhole(fields[0], d);
    } else {
      SplitJoin(fields[1..], d);
      SplitFirst(fields[0], d, Join(fields[1..], d));
    }
  }

  /** No field contains the delimiter. */
  lemma {:induction false} FieldsAreFree(s: string, d: char)
    ensures forall i | 0 <= i < |Split(s, d)| :: d !in Split(s, d)[i]
    decreases |s|
  {
    if s != "" {
      FieldsAreFree(s[1..], d);
    }
  }

  function Occurrences(s: string, d: char): nat {
    if s == "" then 0 else (if s[0] == d then 1 else 0) + Occurrences(s[1..], d)
  }

  lemma {:induction false} FieldsAreCounted(s: string, d: char)
    ensures |Split(s, d)| == Occurrences(s, d) + 1
    decreases |s|
  {
    if s != "" {
      FieldsAreCounted(s[1..], d);
    }
  }

  /** `SplitString`: advances `pos` over the delimiters and pushes the text between them. */
  method SplitString(str: string, delimiter: char) returns (dest: seq<string>)
    ensures dest == Split(str, delimiter)
  {
    dest := [];
    var pos := 0;
    assert str[0..] == str;
    while true
      invariant 0 <= pos <= |str|
      invariant dest + Split(str[pos..], delimiter) == Split(str, delimiter)
      decreases |str| - pos
    {
      match Find(str[pos..], delimiter) {
        case None =>
          SplitWhole(str[pos..], delimiter);
          dest := dest + [str[pos..]];
          return;
        case Some(k) =>
          var colon := pos + k;
          SplitAfter(str, pos, colon, delimiter);
          Shift(dest, str[pos..colon], Split(str[colon + 1..], delimiter));
          dest := dest + [str[pos..colon]];
          pos := colon + 1;
      }
    }
  }

  lemma {:induction false} SplitAfter(s: string, pos: nat, colon: nat, d: char)
    requires pos <= colon < |s| && s[colon] == d && d !in s[pos..][..colon - pos]
    ensures Split(s[pos..], d) == [s[pos..colon]] + Split(s[colon + 1..], d)
  {
    assert s[pos..] == s[pos..colon] + [d] + s[colon + 1..];
    assert s[pos..][..colon - pos] == s[pos..colon];
    SplitFirst(s[pos..colon], d, s[colon + 1..]);
  }

  lemma {:induction false} Shift(a: seq<string>, x: string, b: seq<string>)
    ensures a + ([x] + b) == (a + [x]) + b
  {
  }
}
