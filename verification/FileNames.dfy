// Entity ids as file names: the record store's and the hold store's encodings.

module FileNames {
  const ESCAPED_SLASH := "%2F"

  // ---- the record store: only '/' is escaped -------------------------------------------

  function EncodeEntity(id: string): string {
    if id == "" then "" else (if id[0] == '/' then ESCAPED_SLASH else [id[0]]) + EncodeEntity(id[1..])
  }

  predicate EscapeFirst(name: string) {
    |name| >= 3 && name[0] == '%' && name[1] == '2' && name[2] == 'F'
  }

  function DecodeEntity(name: string): string {
    if name == "" then ""
    else if EscapeFirst(name) then "/" + DecodeEntity(name[3..])
    else [name[0]] + DecodeEntity(name[1..])
  }

  // No "%2F" occurs in the id.
  ghost predicate EscapeFree(id: string) {
    forall i :: 0 <= i <= |id| ==> !EscapeFirst(id[i..])
  }

  // Character by character: a slash becomes "%2F", anything else stays.
  lemma {:induction false} EncodesEach(a: string, b: string, c: char)
    ensures EncodeEntity(a + b) == EncodeEntity(a) + EncodeEntity(b)
    ensures EncodeEntity([c]) == if c == '/' then ['%', '2', 'F'] else [c]
  {
    assert [c][1..] == "" && EncodeEntity("") == "";
    if a == "" {
      assert a + b == b;
    } else {
      EncodesEach(a[1..], b, c);
      assert (a + b)[1..] == a[1..] + b && (a + b)[0] == a[0];
    }
  }

  lemma {:induction false} EncodedHasNoSlash(id: string)
    ensures '/' !in EncodeEntity(id)
    ensures EncodeEntity(id) == "" <==> id == ""
    ensures id != "" ==> EncodeEntity(id)[0] == if id[0] == '/' then '%' else id[0]
  {
    if id != "" {
      EncodedHasNoSlash(id[1..]);
    }
  }

  // Encoding neither makes nor breaks an escape in front of it.
  lemma EscapeFirstKept(id: string)
    requires id != "" && id[0] != '/'
    ensures EscapeFirst([id[0]] + EncodeEntity(id[1..])) == EscapeFirst(id)
    ensures EscapeFirst(id) ==> EncodeEntity(id) == ESCAPED_SLASH + EncodeEntity(id[3..])
  {
    EncodedHasNoSlash(id[1..]);
    if |id| >= 2 {
      assert id[1..][0] == id[1] && id[1..][1..] == id[2..];
      EncodedHasNoSlash(id[2..]);
      if |id| >= 3 {
        assert id[2..][0] == id[2] && id[2..][1..] == id[3..];
      }
    }
  }

  lemma {:induction false} DecodeEncode(id: string)
    ensures DecodeEntity(EncodeEntity(id)) == DecodeEntity(id)
  {
    if id == "" {
    } else if id[0] == '/' {
      DecodeEncode(id[1..]);
      assert EncodeEntity(id)[3..] == EncodeEntity(id[1..]);
    } else {
      EscapeFirstKept(id);
      if EscapeFirst(id) {
        DecodeEncode(id[3..]);
        assert EncodeEntity(id)[3..] == EncodeEntity(id[3..]);
      } else {
        DecodeEncode(id[1..]);
        assert EncodeEntity(id)[1..] == EncodeEntity(id[1..]);
      }
    }
  }

  lemma {:induction false} EncodeDecode(name: string)
    requires '/' !in name
    ensures EncodeEntity(DecodeEntity(name)) == name
  {
    if name == "" {
    } else if EscapeFirst(name) {
      EncodeDecode(name[3..]);
      assert DecodeEntity(name)[1..] == DecodeEntity(name[3..]);
      assert name == ESCAPED_SLASH + name[3..];
    } else {
      EncodeDecode(name[1..]);
      assert DecodeEntity(name)[1..] == DecodeEntity(name[1..]);
      assert name == [name[0]] + name[1..];
    }
  }

  lemma {:induction false} DecodeFixes(id: string)
    ensures |DecodeEntity(id)| <= |id|
    ensures DecodeEntity(id) == id <==> EscapeFree(id)
  {
    if id == "" {
    } else if EscapeFirst(id) {
      DecodeFixes(id[3..]);
      assert id[0..] == id;
    } else {
      DecodeFixes(id[1..]);
      var rest := id[1..];
      assert id == [id[0]] + rest;
      assert DecodeEntity(id)[1..] == DecodeEntity(rest);
      assert forall i :: 0 <= i <= |rest| ==> rest[i..] == id[i + 1..];
      if EscapeFree(rest) {
        forall i | 0 <= i <= |id| ensures !EscapeFirst(id[i..]) {
          if i == 0 {
            assert id[0..] == id;
          } else {
            assert rest[i - 1..] == id[i..];
          }
        }
      }
    }
  }

  // A name decodes to the id it was made from exactly when no "%2F" occurs in
  // that id.
  lemma RecordNameRoundTripIff(id: string)
    ensures DecodeEntity(EncodeEntity(id)) == id <==> EscapeFree(id)
  {
    DecodeEncode(id);
    DecodeFixes(id);
  }

  // What decoding yields is free of escapes, so it is a fixed point.
  lemma DecodedIsEscapeFree(id: string)
    ensures EscapeFree(DecodeEntity(id))
  {
    var name := EncodeEntity(id);
    EncodedHasNoSlash(id);
    DecodeEncode(id);
    EncodeDecode(name);
    DecodeEncode(DecodeEntity(name));
    DecodeFixes(DecodeEntity(id));
  }

  // Two ids share a file exactly when they decode alike; so ids without "%2F"
  // never do.
  lemma RecordNamesCollideIff(a: string, b: string)
    ensures EncodeEntity(a) == EncodeEntity(b) <==> DecodeEntity(a) == DecodeEntity(b)
    ensures EscapeFree(a) && EscapeFree(b) && EncodeEntity(a) == EncodeEntity(b) ==> a == b
  {
    DecodeEncode(a);
    DecodeEncode(b);
    EncodedHasNoSlash(a);
    EncodedHasNoSlash(b);
    EncodeDecode(EncodeEntity(a));
    EncodeDecode(EncodeEntity(b));
    DecodeFixes(a);
    DecodeFixes(b);
  }

  // ---- the hold store: the escape character is escaped too -----------------------------

  function HoldEscape(c: char): string {
    match c
    case '%' => "%25"
    case '/' => "%2F"
    case '\\' => "%5C"
    case _ => [c]
  }

  function EncodeHoldEntity(id: string): string {
    if id == "" then "" else HoldEscape(id[0]) + EncodeHoldEntity(id[1..])
  }

  // Character by character: the escape character and both separators are escaped.
  lemma {:induction false} HoldEncodesEach(a: string, b: string, c: char)
    ensures EncodeHoldEntity(a + b) == EncodeHoldEntity(a) + EncodeHoldEntity(b)
    ensures EncodeHoldEntity([c])
         == if c == '%' then ['%', '2', '5'] else if c == '/' then ['%', '2', 'F'] else if c == '\\' then ['%', '5', 'C'] else [c]
  {
    assert [c][1..] == "" && EncodeHoldEntity("") == "";
    if a == "" {
      assert a + b == b;
    } else {
      HoldEncodesEach(a[1..], b, c);
      assert (a + b)[1..] == a[1..] + b && (a + b)[0] == a[0];
    }
  }

  // No escape is the start of another.
  lemma EscapesDiffer(c: char, x: string, d: char, y: string)
    requires HoldEscape(c) + x == HoldEscape(d) + y
    ensures c == d && x == y
  {
    var ec, ed := HoldEscape(c), HoldEscape(d);
    var whole := ec + x;
    assert whole[0] == ec[0] == ed[0];
    if ec[0] == '%' {
      assert |ec| == |ed| == 3 && whole[2] == ec[2] == ed[2];
      assert c == d;
    }
    assert x == whole[|ec|..] == y;
  }

  lemma {:induction false} HoldNamesDistinct(a: string, b: string)
    requires EncodeHoldEntity(a) == EncodeHoldEntity(b)
    ensures a == b
  {
    if a != "" && b != "" {
      EscapesDiffer(a[0], EncodeHoldEntity(a[1..]), b[0], EncodeHoldEntity(b[1..]));
      HoldNamesDistinct(a[1..], b[1..]);
      assert a == [a[0]] + a[1..] && b == [b[0]] + b[1..];
    } else {
      hide HoldEscape;
      assert EncodeHoldEntity("") == "";
    }
  }

  lemma {:induction false} HoldNameIsOneComponent(id: string)
    ensures '/' !in EncodeHoldEntity(id) && '\\' !in EncodeHoldEntity(id)
  {
    if id != "" {
      HoldNameIsOneComponent(id[1..]);
    }
  }
}
