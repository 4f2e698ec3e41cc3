/** The errors the generated health-check codec can return. */
module WireErrors {

  datatype CodecError =
    /** io.ErrUnexpectedEOF: the input ends inside a varint or a field. */
    | UnexpectedEof
    /** ErrIntOverflowService: a varint still continues at shift 64. */
    | IntOverflow
    /** ErrInvalidLengthService: a length or an end index came out negative. */
    | InvalidLength
    /** "proto: <message>: wiretype end group for non-group" */
    | EndGroupForNonGroup(message: string)
    /** "proto: <message>: illegal tag <fieldNum> (wire type <wire>)" */
    | IllegalTag(message: string, fieldNum: int, wire: int)
    /** "proto: wrong wireType = <wireType> for field <field>" */
    | WrongWireType(field: string, wireType: int)
    /** "proto: illegal wireType <wireType>" (raised while skipping) */
    | IllegalWireType(wireType: int)
}
