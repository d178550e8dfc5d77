/** The records the components pass around (`Transaction`, `Lead` and
    `Message` from the shared type declarations, plus the calendar event
    and property rows). Timestamps are milliseconds since 1970-01-01 UTC. */
module Entities {
  import opened Wrappers

  datatype Currency = USD | TRY

  datatype TransactionType = Income | Expense

  datatype TransactionStatus = Pending | Completed

  datatype Transaction = Transaction(
    id: string,
    userId: string,
    date: int,
    description: string,
    amount: real,
    kind: TransactionType,
    category: string,
    propertyId: Option<string>,
    status: TransactionStatus,
    originalCurrency: Option<Currency>,
    originalAmount: Option<real>)

  datatype LeadStatus = New | Contacted | Qualified | Proposal | Negotiation | Closed | Lost

  datatype Lead = Lead(
    id: string,
    name: string,
    email: string,
    phone: Option<string>,
    status: LeadStatus,
    source: Option<string>,
    notes: Option<string>,
    assignedTo: Option<string>,
    propertyId: Option<string>,
    createdAt: Option<string>,
    updatedAt: Option<string>)

  datatype Message = Message(
    id: string,
    content: string,
    senderId: string,
    createdAt: string,
    read: bool,
    mentions: Option<seq<string>>,
    leadId: string)

  datatype EventType = Booking | Maintenance | Blocked

  datatype EventStatus = Confirmed | EventPending | Cancelled

  datatype CalendarEvent = CalendarEvent(
    id: string,
    propertyId: string,
    unitNumber: string,
    title: string,
    startDate: int,
    endDate: int,
    eventType: EventType,
    status: EventStatus,
    notes: Option<string>)

  /** A property row; `None` stands for a null column (and, for the
      numeric columns, for `NaN`). */
  datatype Property = Property(
    id: string,
    name: Option<string>,
    address: Option<string>,
    propertyType: string,
    status: string,
    monthlyRate: Option<real>,
    originalCurrency: Option<Currency>,
    originalAmount: Option<real>,
    bedrooms: Option<int>,
    bathrooms: Option<int>,
    area: Option<real>,
    image: Option<string>,
    assignedTo: string,
    tenantName: Option<string>,
    tenantExitDate: Option<string>,
    rating: Option<real>)

  /** A list filter drop-down: `'all'` or one value. */
  datatype Choice<T(==)> = All | Only(value: T) {
    predicate Admits(x: T)
    {
      match this
      case All => true
      case Only(v) => v == x
    }
  }
}
