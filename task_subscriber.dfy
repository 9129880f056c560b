/**
 * The task insert hook (task.subscriber.ts): before a task row is inserted,
 * a missing serial number becomes `"t1000"` followed by the decimal count of
 * the task rows, and a task without a parent is flagged as a root task.
 */
module TaskSubscriber {
  import opened Wrappers

  /** The decimal digit of `d`. */
  function DigitChar(d: nat): (c: char)
    requires d < 10
    ensures '0' <= c <= '9' && c as int - '0' as int == d
  {
    ['0', '1', '2', '3', '4', '5', '6', '7', '8', '9'][d]
  }

  predicate IsDigit(c: char)
  {
    '0' <= c <= '9'
  }

  /** `${n}` for a non-negative integer: its decimal digits, without leading zeros. */
  function Decimal(n: nat): (s: string)
    ensures |s| >= 1 && forall i :: 0 <= i < |s| ==> IsDigit(s[i])
    ensures s[0] == '0' ==> n == 0 && |s| == 1
    decreases n
  {
    if n < 10 then [DigitChar(n)] else Decimal(n / 10) + [DigitChar(n % 10)]
  }

  /** The value of a string of decimal digits. */
  function DecimalValue(s: string): nat
    requires forall i :: 0 <= i < |s| ==> IsDigit(s[i])
  {
    if s == [] then 0
    else
      assert IsDigit(s[|s| - 1]);
      DecimalValue(s[..|s| - 1]) * 10 + (s[|s| - 1] as int - '0' as int)
  }

  /** Reading the digits back gives the count: the conversion loses nothing. */
  lemma {:induction false} DecimalRoundTrip(n: nat)
    ensures DecimalValue(Decimal(n)) == n
    decreases n
  {
    if n >= 10 {
      DecimalRoundTrip(n / 10);
      var s := Decimal(n);
      assert s[..|s| - 1] == Decimal(n / 10);
    }
  }

  /** The prefix every generated serial number starts with. */
  const SerialPrefix: string := "t1000"

  /** The serial number generated for a task inserted while `count` task rows are visible. */
  function SerialFor(count: nat): (s: string)
    ensures |s| > |SerialPrefix| && s[..|SerialPrefix|] == SerialPrefix
    ensures forall i :: |SerialPrefix| <= i < |s| ==> IsDigit(s[i])
  {
    SerialPrefix + Decimal(count)
  }

  /** Generated serial numbers are equal exactly when the counts they were generated from are. */
  lemma SerialForInjective(a: nat, b: nat)
    ensures SerialFor(a) == SerialFor(b) <==> a == b
  {
    if SerialFor(a) == SerialFor(b) {
      assert Decimal(a) == SerialFor(a)[|SerialPrefix|..];
      assert Decimal(b) == SerialFor(b)[|SerialPrefix|..];
      DecimalRoundTrip(a);
      DecimalRoundTrip(b);
    }
  }

  /** The serial number the hook leaves on the entity (task.subscriber.ts:23-26). */
  function AssignedSerial(serial: Option<string>, count: nat): (s: string)
    ensures serial.Some? ==> s == serial.value
    ensures serial.None? ==> s == SerialFor(count)
  {
    match serial
    case Some(v) => v
    case None => SerialFor(count)
  }

  /**
   * The root flag the hook leaves on the entity (task.subscriber.ts:27-29):
   * set on every task without a parent, never cleared.
   */
  function RootFlag(parent: Option<Id>, isRoot: bool): (r: bool)
    ensures r <==> isRoot || parent.None?
  {
    if parent.None? && !isRoot then true else isRoot
  }

  /** The task entity on its way into the table: the fields the hook reads or writes. */
  class TaskDraft {
    var serialNumber: Option<string>
    var parent: Option<Id>
    var isRoot: bool

    constructor(serialNumber: Option<string>, parent: Option<Id>, isRoot: bool)
      ensures this.serialNumber == serialNumber && this.parent == parent && this.isRoot == isRoot
    {
      this.serialNumber := serialNumber;
      this.parent := parent;
      this.isRoot := isRoot;
    }
  }

  /**
   * `beforeInsert`: `count` is what `repository.count()` answers; only the
   * serial number and the root flag of the entity change.
   */
  method BeforeInsert(entity: TaskDraft, count: nat)
    modifies entity`serialNumber, entity`isRoot
    ensures entity.serialNumber == Some(AssignedSerial(old(entity.serialNumber), count))
    ensures entity.isRoot == RootFlag(entity.parent, old(entity.isRoot))
  {
    if entity.serialNumber.None? {
      entity.serialNumber := Some(SerialPrefix + Decimal(count));
    }
    if entity.parent.None? && !entity.isRoot {
      entity.isRoot := true;
    }
  }
}
