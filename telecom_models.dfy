/** SIM cards and phone lines: their status enumerations (in declaration
    order), the defaults of a new row, and the uniqueness, one-to-one and
    PROTECT constraints the schema puts on the two tables. */
module TelecomModels {
  import opened Common

  // ---------------------------------------------------------------------
  // SIMcard.Status

  datatype SimStatus = SimAvailable | SimActive | SimBlocked | SimCancelled

  /** `SIMcard.Status.choices`, in declaration order. */
  const SimStatusChoices: seq<SimStatus> := [SimAvailable, SimActive, SimBlocked, SimCancelled]

  /** The stored value of a SIM status. */
  function SimStatusValue(s: SimStatus): string
  {
    match s
    case SimAvailable => "AVAILABLE"
    case SimActive => "ACTIVE"
    case SimBlocked => "BLOCKED"
    case SimCancelled => "CANCELLED"
  }

  /** The human-readable label of a SIM status. */
  function SimStatusLabel(s: SimStatus): string
  {
    match s
    case SimAvailable => "Available"
    case SimActive => "Active"
    case SimBlocked => "Blocked"
    case SimCancelled => "Cancelled"
  }

  lemma SimStatusChoicesComplete(s: SimStatus)
    ensures s in SimStatusChoices
    ensures forall i, j :: 0 <= i < j < |SimStatusChoices| ==> SimStatusChoices[i] != SimStatusChoices[j]
  {
  }

  // ---------------------------------------------------------------------
  // PhoneLine.Status

  datatype LineStatus = Available | Allocated | Suspended | Cancelled

  /** `PhoneLine.Status.choices`, in declaration order. */
  const LineStatusChoices: seq<LineStatus> := [Available, Allocated, Suspended, Cancelled]

  function LineStatusValue(s: LineStatus): string
  {
    match s
    case Available => "AVAILABLE"
    case Allocated => "ALLOCATED"
    case Suspended => "SUSPENDED"
    case Cancelled => "CANCELLED"
  }

  function LineStatusLabel(s: LineStatus): string
  {
    match s
    case Available => "Available"
    case Allocated => "Allocated"
    case Suspended => "Suspended"
    case Cancelled => "Cancelled"
  }

  /** The choice whose stored value is `v`, if any (a ChoiceField's check). */
  function ParseLineStatus(v: string): (r: Option<LineStatus>)
    ensures forall s :: r == Some(s) <==> LineStatusValue(s) == v
  {
    if v == "AVAILABLE" then Some(Available)
    else if v == "ALLOCATED" then Some(Allocated)
    else if v == "SUSPENDED" then Some(Suspended)
    else if v == "CANCELLED" then Some(Cancelled)
    else None
  }

  // ---------------------------------------------------------------------
  // Records

  datatype SimCard = SimCard(
    iccid: string,
    carrier: string,
    status: SimStatus,
    activatedAt: Option<Time>,
    createdAt: Time,
    updatedAt: Time,
    isDeleted: bool)

  datatype PhoneLine = PhoneLine(
    phoneNumber: string,
    simCard: Id,
    status: LineStatus,
    activatedAt: Option<Time>,
    createdAt: Time,
    updatedAt: Time,
    isDeleted: bool)

  /** `SIMcard(iccid=..., carrier=..., [status=...])` created at `now`. */
  function NewSimCard(iccid: string, carrier: string, status: Option<SimStatus>, now: Time): (c: SimCard)
    ensures c.iccid == iccid && c.carrier == carrier
    ensures status.None? ==> c.status == SimAvailable
    ensures status.Some? ==> c.status == status.value
    ensures c.activatedAt.None? && !c.isDeleted && c.createdAt == now && c.updatedAt == now
  {
    SimCard(iccid, carrier, if status.Some? then status.value else SimAvailable, None, now, now, false)
  }

  /** `PhoneLine(phone_number=..., sim_card=..., [status=...])` created at `now`. */
  function NewPhoneLine(phoneNumber: string, sim: Id, status: Option<LineStatus>, now: Time): (l: PhoneLine)
    ensures l.phoneNumber == phoneNumber && l.simCard == sim
    ensures status.None? ==> l.status == Available
    ensures status.Some? ==> l.status == status.value
    ensures l.activatedAt.None? && !l.isDeleted && l.createdAt == now && l.updatedAt == now
  {
    PhoneLine(phoneNumber, sim, if status.Some? then status.value else Available, None, now, now, false)
  }

  /** `SIMcard.__str__`. */
  function SimCardStr(c: SimCard): (s: string)
    ensures c.iccid <= s
    ensures s[|c.iccid|..] == " - " + SimStatusValue(c.status)
  {
    c.iccid + " - " + SimStatusValue(c.status)
  }

  /** `PhoneLine.__str__`. */
  function PhoneLineStr(l: PhoneLine): (s: string)
    ensures l.phoneNumber <= s
    ensures s[|l.phoneNumber|..] == " - " + LineStatusValue(l.status)
  {
    l.phoneNumber + " - " + LineStatusValue(l.status)
  }

  /** The text of a line gives its status back: what follows the number and
      " - " parses to the line's status. */
  lemma PhoneLineStrNamesStatus(l: PhoneLine)
    ensures ParseLineStatus(PhoneLineStr(l)[|l.phoneNumber| + 3..]) == Some(l.status)
  {
    var s := PhoneLineStr(l);
    assert s[|l.phoneNumber| + 3..] == s[|l.phoneNumber|..][3..];
  }

  // ---------------------------------------------------------------------
  // Schema constraints (they hold over ALL rows, soft-deleted ones included)

  /** `iccid = CharField(unique=True)`. */
  ghost predicate UniqueIccids(sims: map<Id, SimCard>) {
    forall a, b :: a in sims && b in sims && a != b ==> sims[a].iccid != sims[b].iccid
  }

  /** `phone_number = CharField(unique=True)`. */
  ghost predicate UniquePhoneNumbers(lines: map<Id, PhoneLine>) {
    forall a, b :: a in lines && b in lines && a != b ==> lines[a].phoneNumber != lines[b].phoneNumber
  }

  /** `sim_card = OneToOneField(...)`: no SIM card backs two lines. */
  ghost predicate SimBoundOnce(lines: map<Id, PhoneLine>) {
    forall a, b :: a in lines && b in lines && a != b ==> lines[a].simCard != lines[b].simCard
  }

  /** The foreign key of every line names an existing SIM card. */
  ghost predicate LinesReferenceSims(lines: map<Id, PhoneLine>, sims: map<Id, SimCard>) {
    forall a :: a in lines ==> lines[a].simCard in sims
  }

  ghost predicate TelecomValid(sims: Table<SimCard>, lines: Table<PhoneLine>) {
    && sims.Valid() && lines.Valid()
    && UniqueIccids(sims.rows)
    && UniquePhoneNumbers(lines.rows) && SimBoundOnce(lines.rows)
    && LinesReferenceSims(lines.rows, sims.rows)
  }

  datatype DbError =
    | IntegrityError(reason: string)
    | ProtectedError(reason: string)

  predicate IccidTaken(sims: map<Id, SimCard>, iccid: string, except: Option<Id>) {
    exists k :: k in sims && Some(k) != except && sims[k].iccid == iccid
  }

  predicate PhoneNumberTaken(lines: map<Id, PhoneLine>, number: string, except: Option<Id>) {
    exists k :: k in lines && Some(k) != except && lines[k].phoneNumber == number
  }

  predicate SimTaken(lines: map<Id, PhoneLine>, sim: Id, except: Option<Id>) {
    exists k :: k in lines && Some(k) != except && lines[k].simCard == sim
  }

  /** Saving SIM card `c` under key `pk` (an existing row when `pk` is in the
      table, otherwise a new one): the unique index on ICCID rejects it when
      another row already holds the ICCID. */
  function SaveSimCard(sims: Table<SimCard>, pk: Option<Id>, c: SimCard): (r: Result<(Table<SimCard>, Id), DbError>)
    requires sims.Valid()
    requires pk.Some? ==> pk.value in sims.rows
    ensures r.Err? <==> IccidTaken(sims.rows, c.iccid, pk)
    ensures r.Ok? ==> r.value.0.Valid() && r.value.1 in r.value.0.rows && r.value.0.rows[r.value.1] == c
    ensures r.Ok? && pk.Some? ==> r.value.1 == pk.value && r.value.0.rows.Keys == sims.rows.Keys
    ensures r.Ok? && pk.None? ==> r.value.1 !in sims.rows && r.value.0.rows.Keys == sims.rows.Keys + {r.value.1}
    ensures r.Ok? ==> forall k :: k in sims.rows && k != r.value.1 ==> r.value.0.rows[k] == sims.rows[k]
  {
    if IccidTaken(sims.rows, c.iccid, pk) then Err(IntegrityError("UNIQUE constraint failed: iccid"))
    else if pk.Some? then Ok((sims.Update(pk.value, c), pk.value))
    else Ok((sims.Insert(c), sims.nextId))
  }

  /** Saving phone line `l` under key `pk`: rejected when the number is taken,
      when another line is already bound to the same SIM card, or when the
      SIM card does not exist. */
  function SavePhoneLine(lines: Table<PhoneLine>, sims: map<Id, SimCard>, pk: Option<Id>, l: PhoneLine): (r: Result<(Table<PhoneLine>, Id), DbError>)
    requires lines.Valid()
    requires pk.Some? ==> pk.value in lines.rows
    ensures r.Err? <==> PhoneNumberTaken(lines.rows, l.phoneNumber, pk) || SimTaken(lines.rows, l.simCard, pk) || l.simCard !in sims
    ensures r.Ok? ==> r.value.0.Valid() && r.value.1 in r.value.0.rows && r.value.0.rows[r.value.1] == l
    ensures r.Ok? && pk.Some? ==> r.value.1 == pk.value && r.value.0.rows.Keys == lines.rows.Keys
    ensures r.Ok? && pk.None? ==> r.value.1 !in lines.rows && r.value.0.rows.Keys == lines.rows.Keys + {r.value.1}
    ensures r.Ok? ==> forall k :: k in lines.rows && k != r.value.1 ==> r.value.0.rows[k] == lines.rows[k]
  {
    if PhoneNumberTaken(lines.rows, l.phoneNumber, pk) then Err(IntegrityError("UNIQUE constraint failed: phone_number"))
    else if SimTaken(lines.rows, l.simCard, pk) then Err(IntegrityError("UNIQUE constraint failed: sim_card_id"))
    else if l.simCard !in sims then Err(IntegrityError("FOREIGN KEY constraint failed"))
    else if pk.Some? then Ok((lines.Update(pk.value, l), pk.value))
    else Ok((lines.Insert(l), lines.nextId))
  }

  lemma SaveSimCardKeepsUnique(sims: Table<SimCard>, pk: Option<Id>, c: SimCard)
    requires sims.Valid() && UniqueIccids(sims.rows)
    requires pk.Some? ==> pk.value in sims.rows
    ensures var r := SaveSimCard(sims, pk, c); r.Ok? ==> UniqueIccids(r.value.0.rows)
  {
  }

  lemma SavePhoneLineKeepsConstraints(lines: Table<PhoneLine>, sims: map<Id, SimCard>, pk: Option<Id>, l: PhoneLine)
    requires lines.Valid() && UniquePhoneNumbers(lines.rows) && SimBoundOnce(lines.rows)
    requires LinesReferenceSims(lines.rows, sims)
    requires pk.Some? ==> pk.value in lines.rows
    ensures var r := SavePhoneLine(lines, sims, pk, l);
      r.Ok? ==> UniquePhoneNumbers(r.value.0.rows) && SimBoundOnce(r.value.0.rows) && LinesReferenceSims(r.value.0.rows, sims)
  {
    var r := SavePhoneLine(lines, sims, pk, l);
    if r.Ok? {
      var t := r.value.0.rows;
      var id := r.value.1;
      forall a, b | a in t && b in t && a != b
        ensures t[a].phoneNumber != t[b].phoneNumber && t[a].simCard != t[b].simCard
      {
        if a == id {
          assert b in lines.rows && Some(b) != pk;
        } else if b == id {
          assert a in lines.rows && Some(a) != pk;
        }
      }
    }
  }

  /** Deleting SIM cards: `on_delete=PROTECT` on `PhoneLine.sim_card` refuses
      while any line, soft-deleted or not, references one of them. */
  function DeleteSimCards(sims: Table<SimCard>, lines: map<Id, PhoneLine>, pks: set<Id>): (r: Result<Table<SimCard>, DbError>)
    ensures r.Err? <==> exists k :: k in lines && lines[k].simCard in pks && lines[k].simCard in sims.rows
    ensures r.Ok? ==> r.value.rows.Keys == sims.rows.Keys - pks
    ensures r.Ok? ==> forall k :: k in r.value.rows ==> r.value.rows[k] == sims.rows[k]
    ensures LinesReferenceSims(lines, sims.rows) && r.Ok? ==> LinesReferenceSims(lines, r.value.rows)
  {
    if exists k :: k in lines && lines[k].simCard in pks && lines[k].simCard in sims.rows then
      Err(ProtectedError("SIM card referenced by a phone line"))
    else
      Ok(sims.Remove(pks))
  }
}
