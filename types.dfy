/** The record shapes of the timeline (types.ts) and the calendar dates they carry. */
module Types {

  datatype Option<+T> = None | Some(value: T)

  /** A calendar date, as the `YYYY-MM-DD` string of a memory spells it. */
  datatype Date = Date(year: int, month: int, day: int)

  predicate IsLeapYear(y: int) {
    y % 4 == 0 && (y % 100 != 0 || y % 400 == 0)
  }

  function DaysInMonth(y: int, m: int): (n: int)
    requires 1 <= m <= 12
    ensures 28 <= n <= 31
    ensures m == 2 ==> (n == 29 <==> IsLeapYear(y))
  {
    if m == 2 then (if IsLeapYear(y) then 29 else 28)
    else if m == 4 || m == 6 || m == 9 || m == 11 then 30
    else 31
  }

  /** A four-digit year, a month 1..12 and a day that exists in that month. */
  predicate ValidDate(d: Date) {
    0 <= d.year <= 9999 && 1 <= d.month <= 12 && 1 <= d.day <= DaysInMonth(d.year, d.month)
  }

  type CalendarDate = d: Date | ValidDate(d) witness Date(2023, 1, 1)

  /** `a` is on or before `b`: for valid ISO dates, the order of their timestamps. */
  predicate NotAfter(a: Date, b: Date)
    ensures a.year < b.year ==> NotAfter(a, b)
    ensures a == b ==> NotAfter(a, b)
  {
    a.year < b.year || (a.year == b.year && (a.month < b.month || (a.month == b.month && a.day <= b.day)))
  }

  /** `NotAfter` is a total order on dates. */
  lemma NotAfterTotalOrder(a: Date, b: Date, c: Date)
    ensures NotAfter(a, a)
    ensures NotAfter(a, b) || NotAfter(b, a)
    ensures NotAfter(a, b) && NotAfter(b, a) ==> a == b
    ensures NotAfter(a, b) && NotAfter(b, c) ==> NotAfter(a, c)
  {
  }

  /** One timeline entry. `imageUrl` and `tags` are the optional fields of the record. */
  datatype Memory = Memory(
    id: string,
    date: CalendarDate,
    title: string,
    description: string,
    imageUrl: Option<string>,
    tags: Option<seq<string>>)

  /** A memory without its id: what the create/edit dialog hands to the collection. */
  datatype MemoryDraft = MemoryDraft(
    date: CalendarDate,
    title: string,
    description: string,
    imageUrl: Option<string>,
    tags: Option<seq<string>>)

  /** `{ ...draft, id }` */
  function WithId(draft: MemoryDraft, id: string): (m: Memory)
    ensures m.id == id && DraftOf(m) == draft
  {
    Memory(id, draft.date, draft.title, draft.description, draft.imageUrl, draft.tags)
  }

  /** The fields of `m` other than its id. */
  function DraftOf(m: Memory): MemoryDraft {
    MemoryDraft(m.date, m.title, m.description, m.imageUrl, m.tags)
  }

  /** Lifecycle of the dialog's text-enhancement request. */
  datatype PolishStatus = Idle | Loading | Success | Error
}
