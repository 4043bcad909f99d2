// Classifying a contact between two physics bodies by the names of their nodes.

module Contacts {

  /** A node's name, which SpriteKit leaves unset unless the scene gives one. */
  datatype NodeName = Unnamed | Named(name: string)

  /** Name of the sensor between the two halves of an obstacle. */
  const Goal: string := "goal"

  /** What a contact means for the run. */
  datatype Outcome = Score | Terminal

  /** A contact scores when either node is the goal sensor; every other contact is fatal. */
  function Resolve(a: NodeName, b: NodeName): (r: Outcome)
    ensures r == Score <==> (a == Named(Goal) || b == Named(Goal))
    ensures r == Terminal <==> (a != Named(Goal) && b != Named(Goal))
  {
    if a == Named(Goal) || b == Named(Goal) then Score else Terminal
  }
}
