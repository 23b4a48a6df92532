/**
 * The fixture the dashboard starts from and the public page shows
 * (lib/mockData.ts): nine approved messages, and the two accessors.
 */
module MockData {
  import opened Wrappers
  import opened Types

  const Text500a: string :=
    "The moment I realized my worth wasn't tied to their approval was the day everything changed. For years, I had been seeking validation from people who couldn't even see their own light, let alone appreciate mine. I bent myself into shapes that didn't fit, spoke words that weren't mine, and smiled when my soul was crying. But one morning, I woke up and understood that the only approval I ever needed was my own. That realization didn't come easy\U{2014}it came after countless nights of tears and self-doubt."

  const Text500b: string :=
    "Walking away from what no longer served my soul was the hardest decision I ever made, but also the most liberating. I had invested years into relationships, careers, and dreams that looked perfect on paper but felt hollow inside. Everyone told me I was crazy to leave, that I was throwing away everything I had built. But they couldn't feel the emptiness that had taken residence in my chest. They couldn't hear the quiet voice inside me begging for something more authentic, more aligned with who I was becoming."

  const Text500c: string :=
    "My metanoia began in the most unexpected place\U{2014}a hospital waiting room at 3 AM, surrounded by strangers yet feeling completely alone. That night, I made a promise to myself that I would never again prioritize anyone else's comfort over my own well-being. It took hitting rock bottom to understand that I had been living someone else's life, following a script written by expectations and fear. From that moment forward, I chose to write my own story, even if the pages were messy and uncertain."

  const Text356a: string :=
    "Choosing peace over being right was my turning point. I spent so much energy defending my position, proving my worth, fighting battles that left me exhausted and empty. Then one day, I simply stopped. I let go of the need to be understood by everyone. The silence that followed wasn't defeat\U{2014}it was freedom. It was the sound of my own breath, my own heartbeat, finally loud enough to hear."

  const Text356b: string :=
    "The day I stopped apologizing for taking up space was the day I started living. I had made myself small for so long, shrinking to fit into rooms that were never meant for me. Now I stand tall, speak loudly, and take up every inch of space I deserve. My existence is not an inconvenience\U{2014}it is a gift, and I finally believe that with my whole heart."

  const Text356c: string :=
    "Forgiving myself was harder than forgiving anyone else. I held onto my mistakes like they defined me, replaying every wrong turn, every harsh word, every moment of weakness. But healing required me to extend the same grace to myself that I so freely gave others. I am human. I am flawed. And I am still worthy of love and second chances."

  const Text240a: string :=
    "The quiet moments taught me more than the chaos ever did. In stillness, I found clarity. In solitude, I found strength. The noise of the world had drowned out my inner voice for too long. Now I protect my peace like the precious gift it is."

  const Text240b: string :=
    "Letting go of who I thought I should be to become who I am\U{2014}that was my metanoia. The expectations, the timelines, the comparisons\U{2014}I released them all. What remained was raw, authentic, and finally free."

  const Text240c: string :=
    "Breaking the cycle. For me. For my children. For our future. I refused to pass down the pain that was passed to me. The chain of hurt ends here, with courage, with intention, with love that heals instead of harms."

  /** `mockMessages`. */
  const MockMessages: seq<Message> := [
    Message("1a2b3c4d-5e6f-7a8b-9c0d-1e2f3a4b5c6d", "a1b2c3d4e5f6", Text240a, Approved, "2024-12-01T10:30:00Z", Some("2024-12-01T11:00:00Z")),
    Message("2b3c4d5e-6f7a-8b9c-0d1e-2f3a4b5c6d7e", "b2c3d4e5f6a7", Text500a, Approved, "2024-12-02T14:15:00Z", Some("2024-12-02T15:00:00Z")),
    Message("3c4d5e6f-7a8b-9c0d-1e2f-3a4b5c6d7e8f", "c3d4e5f6a7b8", Text356a, Approved, "2024-12-03T09:45:00Z", Some("2024-12-03T10:30:00Z")),
    Message("4d5e6f7a-8b9c-0d1e-2f3a-4b5c6d7e8f9a", "d4e5f6a7b8c9", Text500b, Approved, "2024-12-04T16:20:00Z", Some("2024-12-04T17:00:00Z")),
    Message("5e6f7a8b-9c0d-1e2f-3a4b-5c6d7e8f9a0b", "e5f6a7b8c9d0", Text240b, Approved, "2024-12-05T11:00:00Z", Some("2024-12-05T12:00:00Z")),
    Message("6f7a8b9c-0d1e-2f3a-4b5c-6d7e8f9a0b1c", "f6a7b8c9d0e1", Text356b, Approved, "2024-12-06T08:30:00Z", Some("2024-12-06T09:15:00Z")),
    Message("7a8b9c0d-1e2f-3a4b-5c6d-7e8f9a0b1c2d", "a7b8c9d0e1f2", Text500c, Approved, "2024-12-07T13:45:00Z", Some("2024-12-07T14:30:00Z")),
    Message("8b9c0d1e-2f3a-4b5c-6d7e-8f9a0b1c2d3e", "b8c9d0e1f2a3", Text240c, Approved, "2024-12-08T17:00:00Z", Some("2024-12-08T18:00:00Z")),
    Message("9c0d1e2f-3a4b-5c6d-7e8f-9a0b1c2d3e4f", "c9d0e1f2a3b4", Text356c, Approved, "2024-12-09T10:15:00Z", Some("2024-12-09T11:00:00Z"))
  ]

  /** `getAllMessages`: the fixture itself. */
  function GetAllMessages(): (r: seq<Message>)
    ensures |r| == 9
  {
    MockMessages
  }

  /** `getApprovedMessages`: the approved fixture messages, in order. */
  function GetApprovedMessages(): (r: seq<Message>)
    ensures forall i | 0 <= i < |r| :: r[i].status == Approved
    ensures IsSubsequence(r, GetAllMessages())
  {
    WithStatusIsSubsequence(MockMessages, Approved);
    WithStatus(MockMessages, Approved)
  }

  /** Every fixture record is approved, carries an approval time, and has
      its own id. */
  lemma FixtureInvariants()
    ensures forall i | 0 <= i < |MockMessages| :: MockMessages[i].status == Approved
    ensures AllApprovedAtConsistent(MockMessages)
    ensures forall i, j | 0 <= i < j < |MockMessages| :: MockMessages[i].id != MockMessages[j].id
  {
  }

  /** Since every fixture record is approved, the public list is the whole
      fixture. */
  lemma ApprovedIsEverything()
    ensures GetApprovedMessages() == GetAllMessages()
  {
    FixtureInvariants();
    WithStatusOfUniform(MockMessages, Approved);
  }

  /** Filtering the public list again changes nothing. */
  lemma ApprovedFilterIdempotent()
    ensures WithStatus(GetApprovedMessages(), Approved) == GetApprovedMessages()
  {
    WithStatusIdempotent(MockMessages, Approved);
  }

  /** The texts' actual lengths. The ones meant as 500-character samples
      come to 502, 513 and 494, so two of them are longer than the
      submission routes would accept. */
  lemma FixtureLengths()
    ensures |Text500a| == 502 && |Text500b| == 513 && |Text500c| == 494
    ensures |Text356a| == 389 && |Text356b| == 348 && |Text356c| == 337
    ensures |Text240a| == 240 && |Text240b| == 202 && |Text240c| == 213
  {
  }
}
