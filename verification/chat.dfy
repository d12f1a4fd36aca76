/** The chat transcript of server/index.js (`chat-message`, lines 426-451):
    the text is trimmed, cut to 200 characters, appended, and only the last
    100 messages are kept. */
module Chat {

  /** `{ id, username, message, timestamp }`; `id` and `timestamp` come from
      the clock and are taken as given. */
  datatype Message = Message(id: int, username: string, message: string, timestamp: string)

  /** Longest accepted message text (`substring(0, 200)`). */
  const MaxLength: nat := 200

  /** Number of messages kept (`slice(-100)`). */
  const WindowSize: nat := 100

  /** The characters `String.prototype.trim` removes: ECMAScript WhiteSpace
      (tab, vertical tab, form feed, space, no-break space, zero width no-break
      space and the space separators) and LineTerminator characters. */
  predicate IsJsSpace(c: char) {
    || c == '\t' || c == '\n' || c == '\U{000B}' || c == '\U{000C}' || c == '\r' || c == ' '
    || c == '\U{00A0}' || c == '\U{1680}' || ('\U{2000}' <= c <= '\U{200A}')
    || c == '\U{2028}' || c == '\U{2029}' || c == '\U{202F}' || c == '\U{205F}'
    || c == '\U{3000}' || c == '\U{FEFF}'
  }

  /** Drops the leading spaces: the result is the suffix of `s` that starts
      at its first non-space character. */
  function TrimStart(s: string): (r: string)
    ensures |r| <= |s| && r == s[|s| - |r|..]
    ensures forall k :: 0 <= k < |s| - |r| ==> IsJsSpace(s[k])
    ensures |r| > 0 ==> !IsJsSpace(r[0])
  {
    if |s| > 0 && IsJsSpace(s[0]) then TrimStart(s[1..]) else s
  }

  /** Drops the trailing spaces: the result is the prefix of `s` that ends at
      its last non-space character. */
  function TrimEnd(s: string): (r: string)
    ensures |r| <= |s| && r == s[..|r|]
    ensures forall k :: |r| <= k < |s| ==> IsJsSpace(s[k])
    ensures |r| > 0 ==> !IsJsSpace(r[|r| - 1])
  {
    if |s| > 0 && IsJsSpace(s[|s| - 1]) then TrimEnd(s[..|s| - 1]) else s
  }

  /** `s.trim()`: the slice `s[i..j]` with only spaces outside it and none at
      either end of it. */
  function Trim(s: string): (r: string)
    ensures exists i, j ::
              && 0 <= i <= j <= |s| && r == s[i..j]
              && (forall k :: 0 <= k < i ==> IsJsSpace(s[k]))
              && (forall k :: j <= k < |s| ==> IsJsSpace(s[k]))
    ensures |r| > 0 ==> !IsJsSpace(r[0]) && !IsJsSpace(r[|r| - 1])
  {
    var a := TrimStart(s);
    var r := TrimEnd(a);
    var i := |s| - |a|;
    assert r == s[i..i + |r|];
    r
  }

  /** `s.substring(0, n)`: the first `n` characters, or all of a shorter `s`. */
  function Truncate(s: string, n: nat): (r: string)
    ensures |r| == if |s| <= n then |s| else n
    ensures r == s[..|r|]
  {
    if |s| <= n then s else s[..n]
  }

  /** The stored text of a message. */
  function Clean(text: string): (r: string)
    ensures |r| == if |Trim(text)| <= MaxLength then |Trim(text)| else MaxLength
    ensures r == Trim(text)[..|r|]
    ensures |Trim(text)| <= MaxLength ==> r == Trim(text)
    ensures |r| > 0 ==> !IsJsSpace(r[0])
  {
    Truncate(Trim(text), MaxLength)
  }

  /** `push` then, beyond 100 messages, `slice(-100)`: the result is the last
      (at most) 100 entries of the log extended by `m`. */
  function Append(log: seq<Message>, m: Message): (r: seq<Message>)
    ensures |r| == if |log| + 1 <= WindowSize then |log| + 1 else WindowSize
    ensures r == (log + [m])[|log| + 1 - |r|..]
    ensures r[|r| - 1] == m
  {
    var grown := log + [m];
    if |grown| > WindowSize then grown[|grown| - WindowSize..] else grown
  }

  /** A string without a space at either end is its own trim. */
  lemma TrimKeeps(s: string)
    requires |s| == 0 || (!IsJsSpace(s[0]) && !IsJsSpace(s[|s| - 1]))
    ensures Trim(s) == s
  {
    var r := Trim(s);
    var i, j :| && 0 <= i <= j <= |s| && r == s[i..j]
                && (forall k :: 0 <= k < i ==> IsJsSpace(s[k]))
                && (forall k :: j <= k < |s| ==> IsJsSpace(s[k]));
    if |s| > 0 {
      assert !(0 < i) by {
        assert !IsJsSpace(s[0]);
      }
      assert !(j < |s|) by {
        assert !IsJsSpace(s[|s| - 1]);
      }
    }
    assert r == s[0..|s|];
  }

  /** Trimming twice is trimming once. */
  lemma TrimIdempotent(s: string)
    ensures Trim(Trim(s)) == Trim(s)
  {
    TrimKeeps(Trim(s));
  }

  /** Cutting after trimming can leave trailing spaces: an `a`, 199 spaces and
      a `b` are stored as the `a` and the 199 spaces, which trim to `a`. */
  lemma CleanCanEndInSpace()
    ensures var text := ['a'] + seq(199, _ => ' ') + ['b'];
      && Clean(text) == ['a'] + seq(199, _ => ' ')
      && Trim(Clean(text)) == ['a']
  {
    var spaces := seq(199, _ => ' ');
    var text := ['a'] + spaces + ['b'];
    assert Trim(text) == text by {
      TrimKeeps(text);
    }
    assert Clean(text) == ['a'] + spaces by {
      assert text[..200] == ['a'] + spaces;
    }
    assert Trim(['a'] + spaces) == ['a'] by {
      TrimEndSpaces(['a'], 199);
      assert TrimStart(['a'] + spaces) == ['a'] + spaces;
    }
  }

  /** A non-space-ended string followed by `n` spaces trims back to itself. */
  lemma {:induction false} TrimEndSpaces(s: string, n: nat)
    requires |s| > 0 && !IsJsSpace(s[|s| - 1])
    ensures TrimEnd(s + seq(n, _ => ' ')) == s
  {
    if n > 0 {
      var t := s + seq(n, _ => ' ');
      assert t[..|t| - 1] == s + seq(n - 1, _ => ' ');
      TrimEndSpaces(s, n - 1);
    } else {
      assert s + seq(0, _ => ' ') == s;
    }
  }
}
