/** Splitting texts as JavaScript does. */
module Strings {
  /** `s.split(mark)` */
  function Split(s: string, mark: char): (parts: seq<string>)
    ensures parts != []
  {
    if s == "" then [""]
    else if s[0] == mark then [""] + Split(s[1..], mark)
    else
      var rest := Split(s[1..], mark);
      [[s[0]] + rest[0]] + rest[1..]
  }

  function Joined(parts: seq<string>, mark: char): string {
    if parts == [] then "" else if |parts| == 1 then parts[0] else parts[0] + ([mark] + Joined(parts[1..], mark))
  }

  /** The parts are what is between the marks. */
  lemma {:induction false} SplitJoined(s: string, mark: char)
    ensures Joined(Split(s, mark), mark) == s
    ensures forall i :: 0 <= i < |Split(s, mark)| ==> mark !in Split(s, mark)[i]
  {
    if s == "" {
    } else {
      var rest, parts := Split(s[1..], mark), Split(s, mark);
      SplitJoined(s[1..], mark);
      if s[0] == mark {
        assert parts[1..] == rest;
        assert "" + ([mark] + Joined(rest, mark)) == s;
      } else {
        assert parts[0] == [s[0]] + rest[0] && parts[1..] == rest[1..];
        if |rest| > 1 {
          assert ([s[0]] + rest[0]) + ([mark] + Joined(rest[1..], mark))
            == [s[0]] + (rest[0] + ([mark] + Joined(rest[1..], mark)));
        }
      }
    }
  }
}
