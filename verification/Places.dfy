/** The chains and communities that addresses, roles and invites belong to. */
module Places {

  datatype ChainId = ChainId(name: string)

  datatype CommunityId = CommunityId(name: string)
}
