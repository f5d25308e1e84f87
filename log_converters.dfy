/** The logger's message padding: every message is written at least
    `MSG_FIXED_LENGTH` characters wide, padded on the right with spaces, so
    that the fields after it line up. A string is a sequence of one-byte
    characters. */
module LogConverters {

  const MSG_FIXED_LENGTH: nat := 40

  /** Go's `strings.Repeat(" ", n)`. */
  function Spaces(n: nat): (s: string)
    ensures |s| == n
    ensures forall i :: 0 <= i < n ==> s[i] == ' '
  {
    if n == 0 then "" else Spaces(n - 1) + " "
  }

  /** `formatMessage`: the message followed by as many spaces as it takes to
      reach `MSG_FIXED_LENGTH`; a message at least that long is unchanged. */
  function FormatMessage(msg: string): (r: string)
    ensures |r| == if |msg| < MSG_FIXED_LENGTH then MSG_FIXED_LENGTH else |msg|
    ensures r[..|msg|] == msg
    ensures forall i :: |msg| <= i < |r| ==> r[i] == ' '
  {
    var numWhiteSpaces := if |msg| < MSG_FIXED_LENGTH then MSG_FIXED_LENGTH - |msg| else 0;
    msg + Spaces(numWhiteSpaces)
  }

  /** Padding an already padded message changes nothing. */
  lemma FormatMessageIdempotent(msg: string)
    ensures FormatMessage(FormatMessage(msg)) == FormatMessage(msg)
  {
    assert Spaces(0) == "";
  }

  /** The message with its trailing spaces removed: what a reader sees. */
  function TrimRightSpaces(s: string): (r: string)
    ensures |r| <= |s| && r == s[..|r|]
    ensures r == [] || r[|r| - 1] != ' '
    decreases |s|
  {
    if s != [] && s[|s| - 1] == ' ' then TrimRightSpaces(s[..|s| - 1]) else s
  }

  lemma {:induction false} TrimRightSpacesPadded(msg: string, n: nat)
    ensures TrimRightSpaces(msg + Spaces(n)) == TrimRightSpaces(msg)
    decreases n
  {
    if n > 0 {
      assert (msg + Spaces(n))[..|msg| + n - 1] == msg + Spaces(n - 1);
      TrimRightSpacesPadded(msg, n - 1);
    } else {
      assert msg + Spaces(n) == msg;
    }
  }

  /** Padding adds only blanks: the padded message reads the same as the
      message once trailing spaces are ignored. */
  lemma FormatMessageReadsTheSame(msg: string)
    ensures TrimRightSpaces(FormatMessage(msg)) == TrimRightSpaces(msg)
  {
    var numWhiteSpaces := if |msg| < MSG_FIXED_LENGTH then MSG_FIXED_LENGTH - |msg| else 0;
    TrimRightSpacesPadded(msg, numWhiteSpaces);
  }
}
