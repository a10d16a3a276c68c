# A verified model of the IEC 61850 client

The client opens an ISO association with a protection device, reads its model, subscribes to reports, edits
setting groups, operates switchgear, and puts back what it changed. These modules model the parts of it that
are small formal systems and prove what they promise.

| modules | part of the client |
|---|---|
| `Octets`, `Ber`, `BerLaws` | BER elements (ISO/IEC 8825-1 sections 8.1.2, 8.1.3, 8.3, 8.6 and 8.19) |
| `Iso`, `IsoLaws`, `IsoAnswers` | TPKT, COTP, session, presentation, ACSE and MMS initiate, requests and answers (RFC 1006 section 6, ITU-T X.224 section 13, ITU-T X.225 section 8) |
| `Rcbs`, `Settings`, `Devices` | a device whose writes may be refused, half applied or lost |
| `Registry`, `Sessions` | the session with its cleanup registry |
| `ReportCounts`, `Reports` | report subscriptions and the count of missed reports |
| `SetGroups` | the select-edit-confirm sequence of setting groups |
| `Controls`, `Runs` | select, operate and cancel; whole sessions |
| `Values`, `Texts`, `ValueTexts` | values, their JSON form, and the text a setting is written from |
| `SessionLogs`, `Restores` | the session log as an undo log, restore |
| `Templates`, `Expanding`, `Servers`, `Expected` | SCL expansion, its indexes, dataset members |
| `DeviceModels` | the device's types merged over functional constraints |
| `XmlTrees` | the handlers that build the SCL element tree |
| `Catalogues` | hint selection, lint and coverage |
| `Refs` | object references and their texts |

How to read it. A loop of the source is a method with that loop, proved equal to a function; what the source
promises is proved about the function. State that the source changes in place is a class, and every method
says its whole new state, for every way it can end: the device's replies, the network and the operator's
interrupts are arbitrary choices in the bodies, so a proved contract holds for all of them. A device may be known
to be `cooperative`: it keeps the association and carries out what it allows. Contracts say what each operation comes
to on such a device, so that none is met by doing nothing. The operator may press Ctrl-C only where a session is
`interruptible`. What is sent is recorded (`Session.writes`, `Session.services`, `Restores.Client.sent`).

The registry has two laws, stated for each report control block that was free when it was first read. The law of
reservation and enabling (`Registry.Held`): a reservation or RptEna that the tool brought about has its undo
registered, that of RptEna last, or its key was given up. The law of the parameters (`Registry.ParamsKept`): each
parameter that no longer has the value first read is remembered by a registered undo, or restoring them was given
up. A key is given up when its undo was taken out of the registry and is not known to have worked: that is shown in
a note, goes through to the operator as an exception, or, after a refused RptEna, is lost in silence.

A control block counts as first read by the latest subscription that took it with nothing of it registered.

## What turned out not to hold

Where a promise fails, a lemma gives a concrete run or the exact condition under which it holds; the conditions on
subscriptions, writes and restores are part of the contracts of `Reports.Subscribe`, `Restores.Client.Write` and
`Restores.Client.Restore`.

- A second subscription to a control block whose earlier one was cut short replaces the saved parameters. They
  survive exactly when none is off its first value, when this one changes none, or as far as restoring them was
  given up: `Registry.SecondRegistration`, `Registry.RetryForgetsTheOriginal`, `Reports.RetryGuard`.
- It also moves what it registers again behind what it does not: with parameters left registered, a retry that
  changes none has its reservation released before the parameters are restored:
  `Registry.OrderAfterRegistering`, `Registry.RetryReordersTheUndos`, `Reports.OrderGuard`.
- After a refused RptEna the notes of taking back the rest are dropped, so an undo that is refused there is lost in
  silence, and so is an RptEna that the device set although the write ended in an error:
  `Reports.Subscribe`, `Reports.UndoLostUnreported`.
- An undo is taken out of the registry before it runs, so one that is refused is reported and not tried again
  (`Sessions.Session.UndoLast`): the laws speak of undos registered or given up.
- An undo of a subscription belongs to its association: after a reconnect it raises, and `Subscription.stop`
  lets that through (`Reports.Stop`).
- A reservation by ResvTms that names no Owner is left alone like another client's, so on a device that reports no
  Owner the tool never releases its own: `Sessions.Session.ReleaseReservation`.
- A cancel that raises leaves the selection in place: `Controls.UnansweredCancel`,
  `Controls.CertainUnlessDoubtful`.
- A write whose reading back raises is not logged and not restored: `Restores.UnloggedWrite`. Nor is one that ends
  in an error although it was carried out.
- An active group changed while its control block cannot be read is logged without a value before it, and not
  restored: `Restores.UnreadableGroupIsNotRestored`.
- An attribute that answers the read before a write with an error has that error recorded as its value; no restore
  can write it: `Restores.ErrorBeforeIsNotRestored`.
- A setting or an active group recorded with a value that cannot be written ends every restore at it with an
  exception, and older items are not reached: `Restores.Client.Restore`.
- A setting holding octets or a time, an empty bit string, or a string in quotes or with white space at its ends does
  not come back from a restore: `ValueTexts.TextRoundTrip`.
- What a restore reports as put back is so within the tolerance in which floats are compared:
  `Restores.FullRestore`, `Restores.PartialRestore`.
- A restore that fails on a newer write and succeeds on an older one goes wrong when it is repeated:
  `Restores.PartialRestore`, `Restores.RepeatedRestoreGoesWrong`.
- A whole turn of report numbers lost is not noticed: `ReportCounts.WholeTurnUnnoticed`.
- The OID encoder accepts a negative second arc, which does not come back: `BerLaws.OidRoundTrip`. Tag numbers
  and lengths can be written that are not read: `BerLaws.IdentifierRoundTrip`, `BerLaws.LengthRefused`.
- A COTP connection request whose selectors bring its length to 255 is written and then refused:
  `IsoLaws.CotpCrRoundTrip`.
- A structure with the members of one of the log's own encodings does not come back from JSON:
  `Values.JsonRoundTrip`.
- An attribute that is basic under one functional constraint and structured under another is missing from the
  leaves: `DeviceModels.BasicTypesAreLeaves`.
- Of two control blocks of one name in different branches the client keeps the later: `DeviceModels.BuildLn`.
- The text of a reference to a logical device is relative anywhere but at the root: `Refs.LdNameIsRelative`.

## Model

| member | source | states |
|---|---|---|
| Ber.EncodeIdentifier | src/mms_protocol/diagnosis/ber.py:30-42 | the loop over base-128 digits produces, for every tag number, the identifier octets that the reading laws below invert; a negative number is refused |
| BerLaws.IdentifierRoundTrip | src/mms_protocol/diagnosis/ber.py:30-42 | the identifier octets of any class, form and number are read back to that number and their own length exactly when the number is below 2^31; a larger one is refused as too large |
| BerLaws.LengthRoundTrip | src/mms_protocol/diagnosis/ber.py:45-52 | the length octets of any length below 2^32 are read back to it, whatever follows |
| BerLaws.LengthRefused | src/mms_protocol/diagnosis/ber.py:177-180 | longer lengths, which the encoder still writes, are refused by the reader (more than four length octets) |
| Ber.DecodeOne | src/mms_protocol/diagnosis/ber.py:149-188 | the offset-moving reader meets the recursive definition of an element at every offset of every buffer, errors included |
| BerLaws.DecodeOneInvertsEncoding | src/mms_protocol/diagnosis/ber.py:149-188 | between any octets before and after, an encoded element is read to its class, form, number and content and to the offset just past it, exactly when number and length are in range, and otherwise to the matching error |
| Ber.DecodeAll | src/mms_protocol/diagnosis/ber.py:191-200 | the loop returns the elements of the buffer in order, or the first error |
| BerLaws.DecodeAllInvertsConcatenation | src/mms_protocol/diagnosis/ber.py:191-200 | a concatenation of encodable elements is read back as that list |
| BerLaws.AcceptedBufferIsItsElements | src/mms_protocol/diagnosis/ber.py:149-200 | the raw octets of the elements of an accepted buffer concatenate back to it; each is itself an element and strictly longer than its content |
| Ber.EncodeIntegerContent | src/mms_protocol/diagnosis/ber.py:61-68 | the strip loop ends and leaves the content that the integer laws are about |
| BerLaws.IntegerRoundTrip | src/mms_protocol/diagnosis/ber.py:61-68 | for every integer the content decodes back to it, and no shorter octet string denotes it in two's complement |
| BerLaws.IntegerCanonical | src/mms_protocol/diagnosis/ber.py:203-206 | re-encoding a decoded content gives it back exactly when it has no redundant leading octet |
| Ber.EncodeOidContent | src/mms_protocol/diagnosis/ber.py:76-91 | the encoder's loops give the content that the OID laws are about, with its errors |
| BerLaws.OidRoundTrip | src/mms_protocol/diagnosis/ber.py:76-91 | an accepted OID decodes back to its arcs exactly when its second arc is not negative, which the encoder does not check |
| Ber.DecodeOid | src/mms_protocol/diagnosis/ber.py:209-223 | the accumulating loop meets the recursive definition of the arcs, including the split of the first subidentifier by 40 |
| BerLaws.OidReencode | src/mms_protocol/diagnosis/ber.py:209-223 | re-encoding accepted content always works and gives it back exactly when no subidentifier starts with 0x80 |
| BerLaws.BitStringRoundTrip | src/mms_protocol/diagnosis/ber.py:99-103 | an accepted bit string decodes to its octets and to the count of bits that are not unused |
| IsoLaws.TpktRoundTrip | src/mms_protocol/diagnosis/iso.py:68-85 | a packet can be built for up to 65531 octets; its four octets of header announce its own length, whatever follows them, and it carries its payload; the reader refuses one whose payload is shorter than two octets |
| IsoLaws.TpktRefused | src/mms_protocol/diagnosis/iso.py:76-85 | a header is refused exactly when it is short, of another version, or announces less than a TPDU |
| Iso.DecodeCotpParams | src/mms_protocol/diagnosis/iso.py:214-225 | the index loop over the variable part builds the parameter dictionary, later values winning, or the truncation error |
| IsoLaws.CotpCrFits | src/mms_protocol/diagnosis/iso.py:147-161 | a connection request can be built exactly when reference and size fit their octets and its length is at most 255 |
| IsoLaws.CotpCrRoundTrip | src/mms_protocol/diagnosis/iso.py:147-161 | a connection request that can be built parses back to its reference, TPDU size and selectors, with any user data behind it, exactly when 9 octets and two more than each selector that is not empty do not come to 255 |
| IsoLaws.CotpDtRoundTrip | src/mms_protocol/diagnosis/iso.py:164-165 | a data TPDU parses back to its payload and end mark |
| Iso.DecodeHeader | src/mms_protocol/diagnosis/iso.py:456-469 | code, length and header size of a session parameter in both length forms, or the truncation error |
| Iso.DecodeSessionParams | src/mms_protocol/diagnosis/iso.py:436-453 | the loop over a parameter field meets its recursive definition, truncation error included |
| IsoLaws.ParamListRoundTrip | src/mms_protocol/diagnosis/iso.py:332-336 | a list of session parameters can be written exactly when each is at most 65535 octets, and then reads back unchanged across the 254/255 length forms |
| IsoLaws.SpduRoundTrip | src/mms_protocol/diagnosis/iso.py:339-343 | an SPDU other than DATA TRANSFER reads back its parameters and user data |
| IsoLaws.SessionDataRoundTrip | src/mms_protocol/diagnosis/iso.py:363-365 | a DATA TRANSFER reads back every user data |
| IsoLaws.SessionConnectRoundTrip | src/mms_protocol/diagnosis/iso.py:346-360 | a CONNECT reads back its selectors and user data |
| Iso.ParsePdv | src/mms_protocol/diagnosis/iso.py:600-620 | one PDV-list gives its context and its payload, or the error of a missing one |
| Iso.ParseUserData | src/mms_protocol/diagnosis/iso.py:600-620 | simply and fully encoded user data, and the refusal of anything else |
| IsoLaws.UserDataRoundTrip | src/mms_protocol/diagnosis/iso.py:521-524 | user data with one PDV-list reads back its context and payload |
| Iso.ParsePresentation | src/mms_protocol/diagnosis/iso.py:632-677 | CP, CPA, CPR, ARU and ARP PPDUs are read field by field, later fields winning, unknown ones skipped |
| IsoLaws.PresentationCpRoundTrip | src/mms_protocol/diagnosis/iso.py:527-545 | a CP PPDU reads back as normal mode with the ACSE APDU as its only user data, whatever selectors it names |
| IsoLaws.ContextListRead | src/mms_protocol/diagnosis/iso.py:527-545 | a CP PPDU offers context 1 for ACSE and context 3 for MMS, both in BER |
| IsoLaws.PresentationAruRoundTrip | src/mms_protocol/diagnosis/iso.py:548-550 | an ARU PPDU reads back its APDU and context |
| IsoLaws.PresentationDataRoundTrip | src/mms_protocol/diagnosis/iso.py:680-686 | user data outside a connection PPDU reads back its context and payload |
| Iso.ParseAcse | src/mms_protocol/diagnosis/iso.py:828-870 | AARQ, AARE, RLRQ, RLRE and ABRT APDUs are read field by field; what each field is read as is pinned by the round trips of `IsoLaws` and `IsoAnswers` |
| IsoLaws.AarqRoundTrip | src/mms_protocol/diagnosis/iso.py:706-727 | an AARQ reads back its application context and the MMS PDU it carries, whatever titles and qualifiers it names |
| IsoLaws.EndApduRoundTrip | src/mms_protocol/diagnosis/iso.py:730-735 | release requests and aborts read back their reason and source |
| Iso.ParseInitiate | src/mms_protocol/diagnosis/iso.py:1103-1130 | the initiate fields and details are read in a loop, later fields winning |
| IsoLaws.InitiateRoundTrip | src/mms_protocol/diagnosis/iso.py:981-1004 | an initiate request reads back exactly the parameters and bit strings it was built from |
| IsoLaws.ConnectionRequestRoundTrip | src/mms_protocol/diagnosis/iso.py:1213-1216 | the connection request in its TPKT parses back to its TPDU size and selectors exactly when its selectors do not bring its length to 255 |
| IsoLaws.AssociationRoundTrip | src/mms_protocol/diagnosis/iso.py:1219-1239 | for every parameter set the builder accepts, the association request parses through session, presentation, ACSE and MMS back to its selectors, initiate parameters and bit strings |
| IsoLaws.ConcludeRequestRoundTrip | src/mms_protocol/diagnosis/iso.py:1242-1244 | the conclude request parses back to an MMS conclude-RequestPDU |
| IsoLaws.ReleaseRequestRoundTrip | src/mms_protocol/diagnosis/iso.py:1247-1249 | the release request parses back to a FINISH SPDU with an ACSE release of reason normal |
| IsoLaws.AbortRequestRoundTrip | src/mms_protocol/diagnosis/iso.py:1252-1254 | the abort request parses back to an ABORT SPDU, an ARU PPDU and an ACSE abort |
| IsoAnswers.CotpConnectionRead | src/mms_protocol/diagnosis/iso.py:239-250 | a connection request or confirm with any references, class and parameters, and any user data behind it, reads back as those, of repeated parameters the last |
| IsoAnswers.CotpDisconnectRead | src/mms_protocol/diagnosis/iso.py:251-262 | a disconnect request reads back its references, reason and parameters |
| IsoAnswers.CotpErrorRead | src/mms_protocol/diagnosis/iso.py:263-272 | an error TPDU reads back its reference, cause and parameters |
| IsoAnswers.CotpDisconnectConfirmRead | src/mms_protocol/diagnosis/iso.py:277-278 | a disconnect confirm reads back its reference |
| IsoAnswers.CotpOtherRead | src/mms_protocol/diagnosis/iso.py:279-279 | of a TPDU of any other type the code and the user data are kept |
| IsoAnswers.OverlaidHas | src/mms_protocol/diagnosis/iso.py:214-225 | of parameters of one code the last one counts |
| IsoAnswers.UserDataOfSpdu | src/mms_protocol/diagnosis/iso.py:482-492 | an SPDU with any parameters around it reads back its user data, plain or extended |
| IsoAnswers.RefusalRead | src/mms_protocol/diagnosis/iso.py:488-492 | the user data of a REFUSE is what follows the octet of its reason code |
| IsoAnswers.TokensThenData | src/mms_protocol/diagnosis/iso.py:475-480 | a GIVE TOKENS in front of a DATA TRANSFER is skipped |
| IsoAnswers.AcseItemsRead | src/mms_protocol/diagnosis/iso.py:828-870 | the fields of any ACSE APDU, any of them in any order and number, are read each into its own place, later ones winning |
| IsoAnswers.EmptyMechanism | src/mms_protocol/diagnosis/iso.py:852-853 | an empty mechanism name stands for none |
| IsoAnswers.AcseRoundTrip | src/mms_protocol/diagnosis/iso.py:828-870 | every AARE (result, diagnostic and its source, responding title and qualifier, mechanism, information), AARQ, RLRQ, RLRE and ABRT reads back exactly as it was |
| IsoAnswers.UserDataRead | src/mms_protocol/diagnosis/iso.py:600-620 | fully encoded user data reads back every PDV-list in order |
| IsoAnswers.SimpleUserDataRead | src/mms_protocol/diagnosis/iso.py:600-620 | simply encoded user data reads back as one PDV of no context |
| IsoAnswers.ApduOf | src/mms_protocol/diagnosis/iso.py:570-574 | the APDU of a context is the first PDV of that context or of none |
| IsoAnswers.ApduOfNoContext | src/mms_protocol/diagnosis/iso.py:570-575 | and the first one of all when there is no such PDV |
| IsoAnswers.PresentationAnswerRoundTrip | src/mms_protocol/diagnosis/iso.py:632-677 | every CPA (any mode) and CPR reads back its selector, context results, provider reason and user data |
| IsoAnswers.ResultMissing | src/mms_protocol/diagnosis/iso.py:623-629 | a context result without a number is -1 |
| IsoAnswers.AbortAnswerRoundTrip | src/mms_protocol/diagnosis/iso.py:632-677 | every ARP reads back its reason, every ARU its user data |
| IsoAnswers.InitiateAnswerRoundTrip | src/mms_protocol/diagnosis/iso.py:1103-1130 | every initiate request and response, whatever fields it has, reads back exactly its parameters |
| IsoAnswers.ServiceErrorRoundTrip | src/mms_protocol/diagnosis/iso.py:1133-1140 | initiate and conclude errors read back their class and code |
| IsoAnswers.OthersPassedOver | src/mms_protocol/diagnosis/iso.py:1133-1140 | fields of a ServiceError other than a constructed 0 are passed over |
| IsoAnswers.RejectRoundTrip | src/mms_protocol/diagnosis/iso.py:1153-1156 | a reject reads back its kind and reason, with or without an invoke ID |
| IsoAnswers.PlainPduRead | src/mms_protocol/diagnosis/iso.py:1143-1157 | any other MMS PDU is told by its number |
| IsoAnswers.AssociationAnswerRoundTrip | src/mms_protocol/diagnosis/iso.py:472-1157 | the answer to an association request parses through session, presentation, ACSE and MMS back to the association result and the initiate parameters it was built from |
| Registry.DroppedBefore | src/ied_client/core/session.py:305-306 | dropping removes exactly the actions of that key, and what is left keeps its order |
| Registry.RegisteredBefore | src/ied_client/core/session.py:301-303 | registering replaces the action of the same key: the new one stands after all others, which keep their order |
| Registry.OrderAfterRegistering | src/ied_client/core/reports.py:444-498 | registering several actions of one RCB over others keeps them in the order of the undo exactly when each part that is not registered again comes before each part that is |
| Registry.WriteKeepsLaws | src/ied_client/core/reports.py:444-504 | a write whose undo is registered beforehand keeps both laws of the registry, accepted, refused or half applied |
| Registry.UndoRestores | src/ied_client/core/session.py:316-321 | an undo that is carried out brings its part of the RCB back to what was first read |
| Registry.UndoKeepsLaws | src/ied_client/core/session.py:308-327 | taking an action out and undoing it keeps both laws when the part is as first read or the key is given up |
| Registry.LastPartMayBeWritten | src/ied_client/core/reports.py:308-309 | when an RCB's action that is next to be undone is not its enabling, the RCB is disabled, in whatever order the others are |
| Registry.NothingLeft | src/ied_client/core/session.py:308-327 | with no action left and nothing given up, an RCB that was free when first read has its RptEna, parameters and Resv back and is not reserved for the tool |
| Registry.SecondRegistration | src/ied_client/core/reports.py:462-485 | registering the values read and writing the changes over an earlier registration keeps the law of the parameters exactly when none is off its first value, or restoring them was given up and none of those changed now is |
| Registry.RetryForgetsTheOriginal | src/ied_client/core/reports.py:462-485 | a retry after a refused write replaces the saved original: a concrete run that loses it |
| Registry.RetryReordersTheUndos | src/ied_client/core/reports.py:444-498 | a retry that changes no parameter moves the reservation behind the parameters left registered: a concrete run after which it is released before they are restored |
| Sessions.Session.Connect | src/ied_client/core/session.py:181-223 | a new association clears the selections and is a new generation; an open one is left alone; a cooperative device accepts it |
| Sessions.Session.Disconnect | src/ied_client/core/session.py:252-260 | whatever happens, the registry is empty afterwards, what was given up is what was reported, and both laws are kept; on a device that accepts the undos every RCB with nothing given up or left from an earlier association is as first read, whatever became of the others; on such a device every registered edit ends |
| Sessions.Session.SetRcb | src/ied_client/core/session.py:234-242 | a write through a closed client raises and changes nothing; otherwise it is carried out, refused in whole or part, or ends in an error although it was carried out; a device that cooperates carries out every write it allows |
| Sessions.Session.ReleaseReservation | src/ied_client/core/reports.py:540-550 | the release writes only a timed reservation held for the tool's own address; on a cooperative device a reservation stays exactly when another client, or nobody, is named as its Owner |
| Sessions.Session.StillReserved | src/ied_client/core/reports.py:552-556 | after the release, a reservation still held for the tool is noticed |
| Sessions.Session.PerformUndo | src/ied_client/core/session.py:316-321 | running an undo and its check touches only its own RCB or SGCB and reports what it achieved |
| Sessions.Session.UndoLast | src/ied_client/core/session.py:312-327 | one turn of the cleanup loop keeps both laws and the order of the undos of every RCB, the edit sessions' answer and the stored setting groups, and gives up exactly what it reports as not undone |
| Sessions.Session.RunCleanups | src/ied_client/core/session.py:308-327 | one note an action in reverse order of registration; the registry ends empty, given up is exactly what is reported, and on a cooperative device every clean RCB is restored beside failing ones and open edits; so is every registered edit ended |
| Reports.ReadStatuses | src/ied_client/core/reports.py:407-417 | every instance with the values read, and whether its owner is the tool itself |
| Reports.FirstFree | src/ied_client/core/reports.py:418-418 | the first instance that is free for the tool, None only when none is |
| Reports.Choose | src/ied_client/core/reports.py:182-197 | the instance taken is disabled, unreserved, owned by no other client and assigned to no other client; when all can be read none before it is, and when none is chosen none is at all |
| Reports.Set | src/ied_client/core/reports.py:573-581 | a write that reaches the device changes only its RCB, as far as the outcome says |
| Reports.Reserve | src/ied_client/core/reports.py:444-461 | the undo is registered before Resv is written, or before enabling makes the device reserve a buffered RCB; both laws are kept wherever it ends |
| Reports.ChangeParams | src/ied_client/core/reports.py:462-485 | only parameters that differ are written, after the values read were registered to be restored; the law of the parameters is kept exactly when the values saved before survive; done, the RCB has the requested ones |
| Reports.EnableReports | src/ied_client/core/reports.py:488-499 | the disabling is registered, last, before RptEna is written; both laws are kept |
| Reports.DropEnabling | src/ied_client/core/reports.py:500-504 | after a refused RptEna its disabling is dropped; it is given up exactly when the device set RptEna after all, and both laws are kept |
| Reports.Subscribe | src/ied_client/core/reports.py:383-516 | on a cooperative device the result is `NoFreeRcb` exactly when no instance may be taken, and otherwise the first that may is enabled with its parameters, unless the operator interrupts; what is sent is a beginning of the reservation, the parameters that differ, the purge, RptEna and the interrogation, all of it when it goes through, and only a refused RptEna is taken back. With any write refused, half applied, lost or interrupted at any point: the registry afterwards is the one before with a prefix of the subscription's undos registered over it, or that with RptEna refused and taken back; the law of reservation and enabling is kept for every RCB; the law of the parameters and the order of the undos are kept for every other RCB, and for the one taken exactly under the stated conditions on what was left of it; given up is exactly what stood, what the dropped notes say, the key whose error went through and an RptEna set although refused |
| Reports.PrepareAndEnable | src/ied_client/core/reports.py:444-500 | the writes of a subscription in their order: it stops at the first that fails, RptEna last, with the undo of each step registered before it |
| Reports.GiBit | src/ied_client/core/reports.py:511-512 | an interrogation is asked for exactly when the bit of weight 16 of TrgOps is set |
| Reports.RetryGuard | src/ied_client/core/reports.py:462-485 | whether the law of the parameters survives can be told before the call from the values saved, read and asked for: if so it survives wherever the subscription ends, and if not it is lost when the subscription goes through |
| Reports.OrderGuard | src/ied_client/core/reports.py:444-498 | a subscription that goes through puts the undos out of order exactly when it reserves, changes no parameter and finds parameters registered to be restored |
| Reports.UndoLostUnreported | src/ied_client/core/reports.py:500-504 | parameters changed, RptEna refused, their undo refused: a concrete run in which the law holds only because restoring them was given up, with the note that says so dropped |
| Reports.StopPart | src/ied_client/core/reports.py:309-325 | one action dropped and undone; only an undo of an earlier association raises; saved parameters that are undone are on the device again |
| Reports.Stop | src/ied_client/core/reports.py:305-329 | RptEna, then parameters, then reservation: what is given up is exactly what is reported or the key whose error goes through; every RCB keeps both laws; on a cooperative device a clean RCB is as it was first read, whatever was given up or registered elsewhere; the actions undone are those registered for the RCB, in that order |
| ReportCounts.JumpCount | src/ied_client/core/reports.py:268-274 | a jump of the wrapped sequence number is counted exactly when fewer than modulus - 1 reports were lost in it, and undercounted otherwise |
| ReportCounts.GapsCountTheMissing | src/ied_client/core/reports.py:263-282 | over any run of segments, repeats and wrap-arounds, the gap count never exceeds the reports missing between the first and the last received, and equals them exactly when fewer than modulus - 1 are lost in a row |
| ReportCounts.WholeTurnUnnoticed | src/ied_client/core/reports.py:268-274 | a whole turn of the numbering lost goes unnoticed, from every number |
| Reports.Subscription.Next | src/ied_client/core/reports.py:263-282 | the counters stay the tally of the reports taken from the queue |
| Reports.Subscription.GapsAreTrue | src/ied_client/core/reports.py:256-282 | so `gaps` is the number of missing reports exactly under that condition |
| SetGroups.AssignedLast | src/ied_client/core/setgroup.py:209-217 | of several values for one setting the last one is stored |
| SetGroups.NotAssigned | src/ied_client/core/setgroup.py:209-217 | a setting not in the edit keeps its value |
| SetGroups.DistinctAllStored | src/ied_client/core/setgroup.py:209-217 | with every setting named once, everything asked for is what is stored |
| SetGroups.WriteField | src/ied_client/core/setgroup.py:93-95 | a write to the SGCB is carried out whole or not at all; an error leaves open which |
| SetGroups.PutAll | src/ied_client/core/setgroup.py:209-217 | a refused value does not stop the others; if none was refused, the edited values are the group's with all requested ones |
| SetGroups.ReadAll | src/ied_client/core/setgroup.py:227-231 | the values read back are compared with the requested ones, all of them, floats with the source's tolerance |
| SetGroups.Verify | src/ied_client/core/setgroup.py:226-233 | selecting again stores nothing; `verified` says whether the group stores everything asked for, floats within the tolerance |
| SetGroups.Attempt | src/ied_client/core/setgroup.py:201-236 | what is inside the `try`: all or nothing at every exit |
| SetGroups.EndEditSession | src/ied_client/core/setgroup.py:250-259 | ending the edit stores nothing, and afterwards it is over or still registered |
| SetGroups.Edit | src/ied_client/core/setgroup.py:160-247 | under failure, refusal, decline or interrupt at any step: it is rejected exactly when there is nothing to set, the settings lie in more than one device or another than named, there is no SGCB, or the group is not between 1 and the number of groups; group n stores all requested values if CnfEdit was accepted, all or nothing if its answer did not come, and is unchanged otherwise, as it is when the operator declines; no other group or device changes, and EditSG is 0 or its cleanup registered; a cooperative device stores the edit unless it is rejected or the operator stops it |
| SetGroups.Activate | src/ied_client/core/setgroup.py:98-120 | rejected exactly when there is no SGCB or no such group; ActSG changes when the write was accepted, perhaps when its answer did not come, and not otherwise; nothing else does; a cooperative device activates the group |
| Controls.HoldingMeans | src/ied_client/core/session.py:212-212 | the selections that stand are those with a successful select in the same association and no operate or answered cancel since |
| Controls.LegalMore | src/ied_client/core/controls.py:485-505 | one more service keeps the law exactly when it is no Operate on a select-before-operate object, or uses a selection that stands |
| Controls.SelectOnly | src/ied_client/core/controls.py:565-581 | one select, with value for ctlModel 4 and plain for 2; the outcome is the device's answer and the selection is remembered exactly when it was accepted |
| Controls.Cancel | src/ied_client/core/controls.py:584-602 | the outcome is the device's answer and the selection is forgotten exactly when there was one |
| Controls.Execute | src/ied_client/core/controls.py:467-528 | declined exactly without a confirmation, and then nothing is sent; otherwise the services sent are a non-empty prefix of the ctlModel's sequence, in its form of select, each but the last answered positively, and the last answer decides the outcome: ok exactly when the whole sequence was answered positively to the termination; an earlier selection is used, not repeated, and consumed whatever the outcome, also when the wait for the termination raises; a cooperative device carries all of it out |
| Controls.CertainUnlessDoubtful | src/ied_client/core/controls.py:597-598 | a selection the tool relies on is certain exactly when no cancel of it went unanswered |
| Controls.UnansweredCancel | src/ied_client/core/controls.py:597-598 | a cancel that raises leaves the tool operating on a selection the device may have given up: a concrete run |
| Runs.Perform | src/ied_client/core/session.py:119-384 | every operation keeps the law of reservation and enabling, the answer for edit sessions and the law of selections; the law of the parameters and the order of the undos are kept but for a subscription over leftovers, and there exactly under its conditions |
| Runs.Run | src/ied_client/core/session.py:119-384 | over any sequence of connect, disconnect, subscribe, stop, edit, activate, select, operate and cancel: every Operate on a select-before-operate object follows a successful select in the same association not yet consumed; every edit session is closed, registered or given up; every reservation and RptEna is as first read, registered or given up; so is every parameter, and the undos are in order, of each RCB since whose last fresh start no subscription over leftovers broke its condition, in particular of each offered to one subscription; and every key given up was shown, raised, or lost after a refused RptEna |
| Values.BasicRoundTrip | src/ied_client/protocol/types.py:256-298 | every value that is no list or structure comes back from its JSON form |
| Values.JsonRoundTrip | src/ied_client/protocol/types.py:256-298 | a value comes back from its JSON form exactly when no structure in it has the members of one of the log's own encodings |
| Values.OmittedMembers | src/ied_client/protocol/types.py:286-287 | a time without microseconds or quality reads as having 0 there |
| Values.FloatsCompared | src/ied_client/core/readwrite.py:307-314 | integers and truth values are compared with floats as numbers, with a tolerance of a millionth of the larger one, or of 1 |
| SessionLogs.SessionLog.Write | src/ied_client/core/sessionlog.py:56-64 | the entry is appended under the next number |
| SessionLogs.CollectRestored | src/ied_client/core/sessionlog.py:107-125 | the loop collects exactly the writes that a successful restore marker of this source names, old-style markers only in their own log |
| SessionLogs.Restorable | src/ied_client/core/sessionlog.py:128-148 | the plan holds exactly the operator's successful writes with a value before them that are not put back yet |
| SessionLogs.NewestFirst | src/ied_client/core/sessionlog.py:128-148 | the plan is in strictly descending order of number |
| SessionLogs.MoreDone | src/ied_client/core/sessionlog.py:128-148 | marking more writes as put back removes exactly those from the plan |
| Restores.LoggedWrite | src/ied_client/core/readwrite.py:260-304 | a logged write keeps the undo law exactly when an older write decides what is left there or the recorded value is the one that was there |
| Restores.UnloggedWrite | src/ied_client/core/readwrite.py:278-288 | a write whose reading back raises never reaches the log, and keeps the law only where an older write decides or the value is unchanged |
| Restores.MarkerInPlan | src/ied_client/core/sessionlog.py:107-148 | the writes a restore makes change no plan, and its outcome takes exactly the write it put back out of the plan |
| Restores.OthersMarkers | src/ied_client/core/sessionlog.py:119-120 | restoring another session's log changes nothing in this session's plan |
| Restores.OperatorWrite | src/ied_client/core/sessionlog.py:128-148 | a successful write of the operator's goes to the front of the plan, and no other entry does |
| Restores.PartialRestore | src/ied_client/core/restore.py:98-134 | what was put back reads back as at the start; and a restore that did not complete keeps the law exactly when, wherever something is left over, the oldest write left over had the value of the start before it, and no float put back is off the start |
| Restores.FullRestore | src/ied_client/core/restore.py:98-134 | a restore that succeeded throughout brings every value back to that of the session start, as far as the comparison of values can tell |
| Restores.RepeatedRestoreGoesWrong | src/ied_client/core/restore.py:98-134 | a concrete run: a newer write fails to be put back, an older one succeeds, and the repeated restore writes the wrong value |
| Restores.RecordedReturns | src/ied_client/core/readwrite.py:317-322 | the value recorded before a write is written back as it was exactly when it is of the declared type and, for a setting, spelled by its text |
| Restores.Client.Write | src/ied_client/core/readwrite.py:232-304 | the record says what the device answered and whether the value read back; on a cooperative device a value of the declared type is stored and logged with the value before it. For every way a write can end (value before read, answered with an error, or missing; accepted, refused, lost, stored otherwise, not read back, unlogged) the undo law of the log survives exactly when an older write decides there, or what a restore would leave is what was there |
| Restores.UnreadableGroupIsNotRestored | src/ied_client/core/setgroup.py:98-135 | the active group changed while its control block could not be read: logged as successful with no value before it, in no plan, and the law lost: a concrete run |
| Restores.ErrorBeforeIsNotRestored | src/ied_client/core/readwrite.py:260-304 | an attribute that answered the read before a write with an error: in the plan, with a value that no restore can write: a concrete run |
| Restores.Client.RestoreItem | src/ied_client/core/restore.py:103-134 | one item: what it marks in the log, that success means the recorded value reads back, and that an exception the source does not handle leaves with nothing logged; a cooperative device takes every value that can be written |
| Restores.Client.MakePlan | src/ied_client/core/restore.py:71-95 | the plan of this session or of an earlier log, with the markers of both; none exactly when the log names another device |
| Restores.Client.RunPlan | src/ied_client/core/restore.py:98-134 | afterwards the plan is what did not succeed or was not reached, in the same order; an item whose exception escapes, as one that cannot be written does, is the last one tried; a cooperative device ends with every item put back |
| Restores.Client.Restore | src/ied_client/core/restore.py:71-134 | with the law before it, a fully successful restore brings every value back to the session start, as far as it can be compared, and plans nothing more; however it ends, also cut short by an exception, the law survives exactly under the partial-restore condition; not confirmed is answered exactly when there is something to restore and the operator declines; on a cooperative device a confirmed restore of writable items succeeds throughout |
| ValueTexts.CoercedFits | src/ied_client/protocol/values.py:25-92 | a checked value is of the declared type, and differs from the one given only where text became bits or octets |
| ValueTexts.TextRoundTrip | src/ied_client/core/restore.py:137-141 | a setting's value comes back from the text a restore makes of it exactly when it is of the declared type and is a boolean, an integer, a float that its text spells, a bit string that is not empty, or a string with no white space at its ends and not in quotes; octets and times never do |
| Texts.IntegerRoundTrip | src/ied_client/protocol/values.py:114-119 | every integer is read back from its decimal text |
| Texts.SpelledIsRead | src/ied_client/protocol/values.py:114-119 | every spelling of digits in a base, capitals, small letters and underscores between them, is read to its number |
| Texts.ReadIsSpelled | src/ied_client/protocol/values.py:114-119 | whatever is read as digits is such a spelling |
| Texts.UnsignedIsRead | src/ied_client/protocol/values.py:114-119 | spellings after 0x, 0o and 0b are read in their base |
| Texts.DecimalIsRead | src/ied_client/protocol/values.py:114-119 | without a prefix they are decimal, and refused when they begin with a zero and are not zero |
| Texts.OnlyTheseAreRead | src/ied_client/protocol/values.py:114-119 | no other text is read as an integer |
| Texts.LowersTo | src/ied_client/protocol/values.py:107-112 | the words for true and false are recognised in any mixture of capitals and small letters |
| ValueTexts.SignedFits | src/ied_client/protocol/values.py:36-42 | an integer fits exactly when its two's complement fits the octets declared, or eight |
| ValueTexts.UnsignedFits | src/ied_client/protocol/values.py:43-48 | an unsigned one exactly when it has no more bits than declared, or than 32 |
| ValueTexts.OthersFit | src/ied_client/protocol/values.py:25-92 | which booleans, floats, bit strings, octets, texts and times are accepted under which size: none and 0 are no limit but for bit strings, a negative size is a maximum |
| ValueTexts.Utf8RoundTrip | src/ied_client/protocol/values.py:79-81 | the octets a text is measured in are those of UTF-8, from which it is read back |
| ValueTexts.OctetsTextRoundTrip | src/ied_client/core/restore.py:137-141 | the text a restore makes of octets stands for them, though it is not one they are read from |
| ValueTexts.QuotedComesBack | src/ied_client/protocol/values.py:136-139 | in quotes every text that fits is read back |
| ValueTexts.OctetsComeBack | src/ied_client/protocol/values.py:130-135 | octets that fit are read back from their hexadecimal digits, separators or not |
| Templates.StackGrows | src/ied_client/scl/expand.py:192-262 | unfolding terminates on arbitrary, cyclic or dangling templates: every type reference followed leaves strictly fewer type ids that are not on the stack |
| Templates.HoldsTheLivePaths | src/ied_client/scl/expand.py:192-262 | the tree holds exactly the template paths whose type references all resolve and repeat no DOType or DAType id |
| Templates.SettingsAreEditable | src/ied_client/scl/expand.py:213-223 | a DA appears under its FC, and as an SE copy exactly when it is an SG attribute not declared as SE |
| Templates.FcIsInherited | src/ied_client/scl/expand.py:226-262 | every sub-attribute carries its attribute's FC |
| Templates.BrokenMeans | src/ied_client/scl/expand.py:108-111 | unfolding a step meets a broken reference exactly when a template path is live but for its last step |
| Templates.AnyBrokenMeans | src/ied_client/scl/expand.py:108-111 | the same for all the steps of a type |
| Expanding.Expander.BuildDa | src/ied_client/scl/expand.py:226-262 | the recursive loops build exactly the unfolded attribute; strict mode raises exactly when something below it is broken; otherwise every broken reference, unknown basic type and attribute without an FC is one warning |
| Expanding.Expander.BuildDo | src/ied_client/scl/expand.py:192-224 | the same for data objects, with SDOs and attribute copies in template order |
| Expanding.Expander.BuildLn | src/ied_client/scl/expand.py:168-178 | the data objects of a logical node; an unknown LNodeType is broken |
| Servers.ServerAccessPoint | src/ied_client/scl/expand.py:73-92 | from the access point named, or the first that has or points at a server, repeated names or not: the loop following ServerAt ends, returns an access point with a server that is reached, and returns none exactly when none is reachable |
| Servers.StartMeans | src/ied_client/scl/model.py:456-463 | the search starts at the first access point of the name given, without one at the first that has or points at a server, or at the first of all |
| Servers.KeptOncePerInst | src/ied_client/scl/expand.py:130-137 | every LDevice inst is kept once |
| Servers.BuildLd | src/ied_client/scl/expand.py:138-143 | the trees of a logical device's nodes |
| Servers.Run | src/ied_client/scl/expand.py:114-143 | strict expansion raises exactly when some kept node has a broken reference; when it does not raise, its result is that of the other mode, which never raises; the warnings are one for each device left out and those of the nodes kept |
| Servers.SilentIsSound | src/ied_client/scl/expand.py:114-143 | an expansion without warnings leaves no logical device out and meets no broken reference |
| Servers.ExpandUnambiguous | src/ied_client/scl/expand.py:192-262 | templates with unique names unfold into trees in which names and FC tell siblings apart |
| Servers.LnIsUnambiguous | src/ied_client/scl/expand.py:164-178 | so do the logical nodes of types whose data objects have different names: what resolving members and the indexes ask for |
| Servers.ResolveExpanded | src/ied_client/scl/expand.py:420-495 | from the templates to a dataset member: in an expansion of templates with unique names a member resolves exactly when everything it names exists, and then to that |
| Expected.WalkFinds | src/ied_client/scl/expected.py:121-125 | the walk finds exactly the attributes that some names spell, under those names |
| Expected.BuildIndex | src/ied_client/scl/expand.py:150-157 | the flat list is the walk of all nodes in order, and a lookup in the index of attributes or of data objects is always the first match of a linear scan |
| Expected.OneNodeAt | src/ied_client/scl/expected.py:162-169 | names and FC tell attributes apart |
| Expected.FindObjectMeans | src/ied_client/scl/expand.py:459-471 | the first-match descent through data objects finds exactly what the names spell |
| Expected.AnyWithFc | src/ied_client/scl/expand.py:482-484 | data under an FC exists below an object exactly when the walk has it |
| Expected.ResolveFcda | src/ied_client/scl/expand.py:420-495 | with unique names a member resolves exactly when LD, LN, DO/SDO chain, DA/BDA chain, FC and array index all exist, and then to what they name |
| Expected.HomeMeans | src/ied_client/scl/expand.py:422-445 | a member is in the first node of its name in the device of its inst, its own device where it names none, and nowhere else |
| Expected.IndexAgrees | src/ied_client/scl/expected.py:445-452 | for an attribute member the indexed lookup of its reference and FC returns that same target |
| Expected.WalkObjectsFinds | src/ied_client/scl/expected.py:179-183 | the walk of data objects finds exactly those that some names spell |
| Expected.DoIndexAgrees | src/ied_client/scl/expected.py:441-443 | with unique names, looking up a data object finds exactly what its reference spells |
| DeviceModels.Find | src/ied_client/protocol/types.py:67-77 | the loop descends component by component, array indices included |
| DeviceModels.NumbersLeadToElements | src/ied_client/protocol/types.py:73-74 | every number leads to the element of an array, and nothing but digits does |
| DeviceModels.ReachOnwards | src/ied_client/protocol/types.py:67-77 | what a longer path reaches is what its end reaches from where its beginning leads |
| DeviceModels.PlainReach | src/ied_client/protocol/types.py:67-77 | without array indices it is the descent by names |
| DeviceModels.Merge | src/ied_client/core/model.py:46-55 | the merge as it runs, component by component, is the merged node |
| DeviceModels.MergedAt | src/ied_client/core/model.py:46-55 | merging a branch puts its types where direct descent finds them and changes nothing else |
| DeviceModels.BuildLn | src/ied_client/core/model.py:283-304 | the data of a logical node is the fold of its data branches, and its dictionary of control blocks holds, for each name, the last of the branches' control blocks of that name |
| DeviceModels.LookupIsDescent | src/ied_client/core/model.py:145-166 | with unique names, looking up (path, FC) in the merged tree gives the type that descending FC then path gives, and fails exactly when that fails |
| DeviceModels.Resolve | src/ied_client/core/model.py:145-166 | a reference resolves exactly when its logical device, node and path exist, under its FC if it has one, and to what is there |
| DeviceModels.ResolveFc | src/ied_client/core/model.py:168-182 | a missing FC must be the only one or the first preferred one; otherwise it is ambiguous; a logical device or node is no data |
| DeviceModels.TypeIsDeclared | src/ied_client/core/model.py:145-182 | the type found at a reference in a browsed model is the one the device declares there, and none exactly when it declares none |
| DeviceModels.LeavesAreDeclared | src/ied_client/core/model.py:207-218 | the leaves are exactly the declared (path, FC) with nothing below the path under any FC, each listed once |
| DeviceModels.BasicTypesAreLeaves | src/ied_client/core/model.py:273-280 | every declared type without components is a leaf if and only if no name has components under one FC and none under another |
| DeviceModels.SpecRoundTrip | src/ied_client/protocol/types.py:102-122 | a type comes back from its JSON form as it was, and with it every lookup |
| XmlTrees.SplitNameMeans | src/ied_client/scl/parser.py:167-169 | the namespace is what stands before the last brace |
| XmlTrees.SkipsElement | src/ied_client/scl/parser.py:164-166 | inside a skipped element nothing happens, however deep it goes |
| XmlTrees.BuildsChild | src/ied_client/scl/parser.py:162-199 | an element inside an open one adds its pruning to it, or nothing |
| XmlTrees.BuildsThePruning | src/ied_client/scl/parser.py:154-207 | over the events of any document with an SCL root the handlers leave exactly the pruned tree, nothing open and nothing skipped; another root is refused |
| XmlTrees.TreeBuilder.Start | src/ied_client/scl/parser.py:162-188 | the start handler on nodes does what the machine does |
| XmlTrees.TreeBuilder.End | src/ied_client/scl/parser.py:190-195 | the end handler on nodes does what the machine does, and the finished node is the element |
| XmlTrees.TreeBuilder.Characters | src/ied_client/scl/parser.py:197-199 | text goes to the innermost open node unless something is skipped |
| XmlTrees.Parse | src/ied_client/scl/parser.py:154-207 | the root node stands for the recursive pruning of the document; the stack is empty and the skip depth 0 |
| Catalogues.CanBothMatchMeans | src/ied_client/explain/catalogue.py:963-969 | the test is exact: it holds when and only when some context matches both entries |
| Catalogues.Best | src/ied_client/explain/catalogue.py:716-720 | the entry returned matches and no matching candidate outranks it; none only when none matches |
| Catalogues.OneBest | src/ied_client/explain/catalogue.py:713-720 | the best candidate is the one of the documented rule: priority, then the exact key, then the number of conditions, then the load order; entries of different load order are not both best |
| Catalogues.Ties | src/ied_client/explain/catalogue.py:945-954 | the nested loops report a tie exactly when two entries of the key have equal standing and can both match |
| Catalogues.LoadOrderIsIrrelevant | src/ied_client/explain/catalogue.py:706-720 | if lint reports no tie for a key, an exact-key winner in a context is the winner for every load order |
| Catalogues.Coverage | src/ied_client/explain/catalogue.py:918-928 | the missing keys are exactly the required ones without a context-free entry |
| Catalogues.CoverageMeans | src/ied_client/explain/catalogue.py:918-928 | a covered key has a matching entry in every context, and a key that is not covered has no exact one in the empty context |
| Catalogues.Layer | src/ied_client/explain/catalogue.py:596-600 | a later entry replaces an earlier one of the same id, and only so |
| Refs.SplitKeepDots | src/ied_client/core/refs.py:142-149 | the loop collects the components, dots kept only as whole chunks |
| Refs.Normalise | src/ied_client/core/refs.py:152-162 | the growing and popping list is the normalised path |
| Refs.DotsCancel | src/ied_client/core/refs.py:152-162 | anywhere in a path two dots cancel the name before them, or nothing at the root, and one dot or an empty component counts for nothing |
| Refs.NormalisedOnwards | src/ied_client/core/refs.py:152-162 | what comes after a path depends only on where it leads |
| Refs.HoldsOnlySteps | src/ied_client/core/refs.py:152-162 | a normalised path holds neither dots nor empty components |
| Refs.NormalisedSteps | src/ied_client/core/refs.py:152-162 | and a path without them is normalised |
| Refs.RelativeText | src/ied_client/core/refs.py:121-149 | a text of any number of `..` and of names, slashes or dots between them, leads that many levels up from the shell location, not above the root, and down its names; it is taken from the root exactly when it begins with a known LD and goes on, or, the LDs unknown, has a dot after its first slash |
| Refs.BracketSplits | src/ied_client/core/refs.py:80-88 | two letters in brackets at the end are the FC, or refused when there is no such FC |
| Refs.AnyCase | src/ied_client/core/refs.py:85-85 | in capitals or small letters |
| Refs.FcAgreement | src/ied_client/core/refs.py:110-118 | an FC given beside a text counts where the text has none and has to agree with the one it has |
| Refs.TextRoundTrip | src/ied_client/core/refs.py:91-118 | parsing the text of a reference that names a logical node returns it from any location when its LD is known |
| Refs.LdNameIsRelative | src/ied_client/core/refs.py:121-139 | the text of an LD reference parses back exactly at the root |
| Refs.ShellPathRoundTrip | src/ied_client/core/refs.py:50-52 | parsing a shell path returns the reference, FC aside, from any location |
| Refs.MmsRoundTrip | src/mms_protocol/names.py:11-35 | `parse_mms` inverts the MMS name of every reference that has one |
| Refs.MmsRefused | src/mms_protocol/names.py:25-27 | a text is refused as an MMS name exactly when it names no logical device |
| Refs.NativeRoundTrip | src/ied_client/core/refs.py:105-118 | where MMS names are accepted, that of a reference stands for it from any location, with its FC said again or not, with another one conflicting; without its LD it stands for it within that LD, and needs one at the root |
| Refs.DatasetRoundTrip | src/mms_protocol/names.py:38-45 | a dataset's item name is read back exactly when the separator is in neither ambiguous place |

## Left out

- BER: object identifiers are lists of arcs, not dotted text; `bits_set` and the descriptions of elements.
- ISO stack: names and texts of refusals and reject reasons beyond their numbers; length octets of 128 and more
  (`BerLaws.DecodeOneInvertsEncoding` asks for a length that can be written at all).
- The native adapter, sockets and probes: the device is an object whose writes may be refused, lost or interrupted.
- Taking over a control block from another client (level C), finding instances by text, and report contents.
- Interrupts inside an undo, and errors there other than the two that `run_cleanups` handles.
- Registry: a multi-attribute write that is refused may leave a part applied; one of a single attribute is carried
  out or not.
- Values.Same: a float is never the same as a text, which the source would read as a number; true and 1 differ.
- SetGroups.Activate: the log entry it writes, and its value before, are those of `Restores.Client.Write`.
- SetGroups.Edit: the settings are given resolved and parsed; the log entries it writes are those of `Restores`,
  one write at a time.
- Controls: `ctlModel` is given with the plan; the authority probe, which selects and cancels without touching
  the remembered selections, timeouts and the reading back of the position.
- Runs.Run: a device ends selections and edits of its own accord when the association is lost; the run records
  only what the tool sends and is answered.
- Values.BasicRoundTrip: `bytes.fromhex` also skips white space, floats are real numbers, and the text of a
  time is an uninterpreted function.
- Restores.Client.Restore: the writes of the three kinds are one method, so that an error at a step of a setting's
  edit counts as one of the ways a write ends; a device that accepts ActSG activates that group; ActSG recorded as
  anything but an integer is not written; counts and summaries of the plan; the name given to a log without a session.
- ValueTexts.TextRoundTrip: Python's texts of floats are a parameter; digits and letters other than ASCII ones in
  numbers, array indices and truth values.
- Expanding: instance values (DOI, SDI, DAI), enumerated literals, transient and trigger flags, control blocks
  and report instances; warnings are counted, not worded.
- Servers.Run: references are lists of names, not dotted text.
- DeviceModels.Merge: data nodes are values; that the source's nodes are shared objects updated in place is not
  captured. Datasets, errors and timings of browsing.
- XmlTrees.Parse: expat itself, line numbers, the warning about a missing namespace, and the second attempt with
  another encoding.
- Catalogues: files, search, explanations and placeholder filling; keys are pairs of a domain and a name.
- Refs.TextRoundTrip: without the set of known logical devices the source guesses from the dots, as `Refs.RelativeText` says.
- Identity, edition, quirks, reachability and failure wording; the command line, rendering and configuration files.
