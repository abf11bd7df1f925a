/**
 The human-readable error strings of the meeting endpoints. Java builds them by
 string concatenation, which writes a `long` id the way `Long.toString` does:
 an optional minus sign followed by decimal digits without leading zeros.
 The lemmas show that each message names its id (and login) unambiguously and
 that the three "not found" answers of participant removal never coincide.
 */
module Messages {

  predicate IsDigit(c: char) {
    '0' <= c <= '9'
  }

  predicate AllDigits(s: string) {
    forall i :: 0 <= i < |s| ==> IsDigit(s[i])
  }

  /** An optional minus sign followed by at least one digit (and, without the sign, only digits). */
  predicate IsDecimalText(s: string) {
    |s| > 0 && if s[0] == '-' then |s| > 1 && AllDigits(s[1..]) else AllDigits(s)
  }

  predicate NoSpace(s: string) {
    forall i :: 0 <= i < |s| ==> s[i] != ' '
  }

  function DigitChar(d: nat): (c: char)
    requires d < 10
    ensures IsDigit(c) && c as int - '0' as int == d
  {
    ('0' as int + d) as char
  }

  function DigitValue(c: char): (d: nat)
    requires IsDigit(c)
    ensures d < 10
  {
    c as int - '0' as int
  }

  /** The decimal digits of `n`, most significant first, with no leading zero. */
  function NatDigits(n: nat): (s: string)
    ensures |s| > 0 && AllDigits(s)
    ensures s[0] == '0' ==> n == 0
    decreases n
  {
    if n < 10 then [DigitChar(n)] else NatDigits(n / 10) + [DigitChar(n % 10)]
  }

  /** A `long` as Java's string concatenation writes it. */
  function Decimal(n: int): (s: string)
    ensures |s| > 0 && IsDigit(s[|s| - 1])
    ensures s[0] == '-' <==> n < 0
    ensures n >= 0 ==> AllDigits(s)
    ensures n < 0 ==> AllDigits(s[1..])
    ensures IsDecimalText(s) && NoSpace(s)
    ensures n != 0 ==> s[if n < 0 then 1 else 0] != '0'
  {
    if n < 0 then "-" + NatDigits(-n) else NatDigits(n)
  }

  /** Reads a string of decimal digits back as a number (the reference for NatDigits). */
  function ParseDigits(s: string): nat
    requires AllDigits(s)
  {
    if s == [] then 0 else ParseDigits(s[..|s| - 1]) * 10 + DigitValue(s[|s| - 1])
  }

  /** Reads an optionally signed decimal string back as a number. */
  function ParseDecimal(s: string): int
    requires IsDecimalText(s)
  {
    if s[0] == '-' then -(ParseDigits(s[1..]) as int) else ParseDigits(s)
  }

  lemma {:induction false} NatDigitsRoundTrip(n: nat)
    ensures ParseDigits(NatDigits(n)) == n
    decreases n
  {
    if n >= 10 {
      var s := NatDigits(n / 10);
      NatDigitsRoundTrip(n / 10);
      assert (s + [DigitChar(n % 10)])[..|s|] == s;
    }
  }

  lemma DecimalRoundTrip(n: int)
    ensures ParseDecimal(Decimal(n)) == n
  {
    if n < 0 {
      assert Decimal(n)[1..] == NatDigits(-n);
      NatDigitsRoundTrip(-n);
    } else {
      NatDigitsRoundTrip(n);
    }
  }

  /** Distinct ids are written differently. */
  lemma DecimalInjective(a: int, b: int)
    ensures Decimal(a) == Decimal(b) ==> a == b
  {
    DecimalRoundTrip(a);
    DecimalRoundTrip(b);
  }

  /** The last word of `s`: the text after its last space, or all of `s` if it has none. */
  function AfterLastSpace(s: string): (w: string)
    ensures |w| <= |s| && w == s[|s| - |w|..] && NoSpace(w)
  {
    if s == [] || s[|s| - 1] == ' ' then [] else AfterLastSpace(s[..|s| - 1]) + [s[|s| - 1]]
  }

  lemma {:induction false} AfterLastSpaceOf(x: string, y: string)
    requires NoSpace(y)
    ensures AfterLastSpace(x + " " + y) == y
    decreases |y|
  {
    if y == [] {
      assert x + " " + y == x + " ";
    } else {
      var y' := y[..|y| - 1];
      assert (x + " " + y)[..|x + " " + y| - 1] == x + " " + y';
      AfterLastSpaceOf(x, y');
    }
  }

  /** `head`, then the id in decimal, then `tail`: the id reads back from between the two. */
  function Framed(head: string, id: int, tail: string): (s: string)
    ensures |s| > |head| + |tail|
    ensures s[..|head|] == head && s[|s| - |tail|..] == tail
    ensures IsDecimalText(s[|head|..|s| - |tail|]) && ParseDecimal(s[|head|..|s| - |tail|]) == id
  {
    DecimalRoundTrip(id);
    var s := head + Decimal(id) + tail;
    assert s[|head|..|s| - |tail|] == Decimal(id);
    s
  }

  const AddConflictHead := "Unable to add meeting. The ID: "
  const AddConflictTail := " already exists."
  const UpdateMissingHead := "Unable to update meeting. The ID: "
  const UpdateMissingTail := " does not exist."
  const MeetingNotFoundHead := "Meeting with ID: "
  const MeetingNotFoundTail := " not found."
  const ParticipantHead := "Participant "
  const ParticipantNotFoundTail := " not found."
  const NotRegisteredMiddle := " not registered on the meeting ID"

  /** The 409 answer of a create whose id is taken; the id reads back from between its fixed head and tail. */
  function AddConflict(id: int): (s: string)
    ensures |s| > |AddConflictHead| + |AddConflictTail|
    ensures s[..|AddConflictHead|] == AddConflictHead && s[|s| - |AddConflictTail|..] == AddConflictTail
    ensures var t := s[|AddConflictHead|..|s| - |AddConflictTail|]; IsDecimalText(t) && ParseDecimal(t) == id
  {
    Framed(AddConflictHead, id, AddConflictTail)
  }

  /** The 409 answer of an update of an unknown id; the id reads back from between its fixed head and tail. */
  function UpdateMissing(id: int): (s: string)
    ensures |s| > |UpdateMissingHead| + |UpdateMissingTail|
    ensures s[..|UpdateMissingHead|] == UpdateMissingHead && s[|s| - |UpdateMissingTail|..] == UpdateMissingTail
    ensures var t := s[|UpdateMissingHead|..|s| - |UpdateMissingTail|]; IsDecimalText(t) && ParseDecimal(t) == id
  {
    Framed(UpdateMissingHead, id, UpdateMissingTail)
  }

  /** The 404 answer for an unknown meeting id; the id reads back from between its fixed head and tail. */
  function MeetingNotFound(id: int): (s: string)
    ensures |s| > |MeetingNotFoundHead| + |MeetingNotFoundTail|
    ensures s[..|MeetingNotFoundHead|] == MeetingNotFoundHead && s[|s| - |MeetingNotFoundTail|..] == MeetingNotFoundTail
    ensures var t := s[|MeetingNotFoundHead|..|s| - |MeetingNotFoundTail|]; IsDecimalText(t) && ParseDecimal(t) == id
  {
    Framed(MeetingNotFoundHead, id, MeetingNotFoundTail)
  }

  /** The 404 answer for an unknown login; the login is exactly the text between its fixed head and tail. */
  function ParticipantNotFound(login: string): (s: string)
    ensures |s| == |ParticipantHead| + |login| + |ParticipantNotFoundTail|
    ensures s[..|ParticipantHead|] == ParticipantHead && s[|s| - |ParticipantNotFoundTail|..] == ParticipantNotFoundTail
    ensures s[|ParticipantHead|..|s| - |ParticipantNotFoundTail|] == login
  {
    var s := ParticipantHead + login + ParticipantNotFoundTail;
    assert s[|ParticipantHead|..|s| - |ParticipantNotFoundTail|] == login;
    s
  }

  /** The 404 answer for a known participant who is not on the roster. Its last word reads back as
      the id; what lies between the fixed head and that word is the login, then the fixed middle. */
  function NotRegistered(login: string, id: int): (s: string)
    ensures var w := AfterLastSpace(s);
      && |s| >= |ParticipantHead| + |w|
      && s[..|ParticipantHead|] == ParticipantHead
      && IsDecimalText(w) && ParseDecimal(w) == id
      && s[|ParticipantHead|..|s| - |w|] == login + NotRegisteredMiddle + " "
  {
    DecimalRoundTrip(id);
    var front := ParticipantHead + login + NotRegisteredMiddle;
    AfterLastSpaceOf(front, Decimal(id));
    var s := front + " " + Decimal(id);
    assert s[|ParticipantHead|..|s| - |Decimal(id)|] == login + NotRegisteredMiddle + " ";
    s
  }

  /** The conflict answer for meeting 1, spelled out. */
  lemma AddConflictForOne()
    ensures AddConflict(1) == "Unable to add meeting. The ID: 1 already exists."
  {
  }

  /** Each id-bearing message names exactly one id. */
  lemma MessagesNameTheId(a: int, b: int)
    ensures AddConflict(a) == AddConflict(b) ==> a == b
    ensures UpdateMissing(a) == UpdateMissing(b) ==> a == b
    ensures MeetingNotFound(a) == MeetingNotFound(b) ==> a == b
  {
  }

  /** The not-found answer names exactly one login; the not-registered answer names exactly one
      login and one id. */
  lemma MessagesNameTheLogin(l1: string, l2: string, a: int, b: int)
    ensures ParticipantNotFound(l1) == ParticipantNotFound(l2) ==> l1 == l2
    ensures NotRegistered(l1, a) == NotRegistered(l2, b) ==> l1 == l2 && a == b
  {
    if NotRegistered(l1, a) == NotRegistered(l2, b) {
      var s := NotRegistered(l1, a);
      var w := AfterLastSpace(s);
      var rest := NotRegisteredMiddle + " ";
      assert s[|ParticipantHead|..|s| - |w|] == l1 + rest;
      assert s[|ParticipantHead|..|s| - |w|] == l2 + rest;
      assert |l1| == |l2|;
      assert l1 == (l1 + rest)[..|l1|];
      assert l2 == (l2 + rest)[..|l2|];
    }
  }

  /** The three 404 answers of participant removal are told apart by their text, whatever the inputs. */
  lemma RemovalMessagesDistinct(id: int, id': int, login: string, login': string)
    ensures MeetingNotFound(id) != ParticipantNotFound(login)
    ensures MeetingNotFound(id) != NotRegistered(login, id')
    ensures ParticipantNotFound(login') != NotRegistered(login, id)
  {
    assert MeetingNotFound(id)[0] == 'M';
    assert ParticipantNotFound(login)[0] == 'P';
    assert NotRegistered(login, id')[0] == 'P';
    var found := ParticipantNotFound(login');
    var missing := NotRegistered(login, id);
    assert found[|found| - 1] == '.';
    assert missing[|missing| - 1] == Decimal(id)[|Decimal(id)| - 1];
  }
}
