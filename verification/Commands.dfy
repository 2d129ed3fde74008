/** The command codes of a CPT request, cpt_api/include/cpt_types.h. */
module Commands {
  const SEND := 1
  const LOGOUT := 2
  const GET_USERS := 3
  const CREATE_CHANNEL := 4
  const JOIN_CHANNEL := 5
  const LEAVE_CHANNEL := 6
  const CREATE_VCHAN := 8
}
